/** The DNSPod provider: brings the provider's A and AAAA records of every
    managed domain in line with the host's current addresses. */
module Dnspod {
  import opened Config
  import opened Requests
  import opened Provider
  import opened Reconcile

  /** The TTL a run applies: the configured one, or 600 seconds when none is
      configured; it is never empty. */
  function EffectiveTtl(configured: string): (ttl: string)
    ensures ttl != ""
    ensures configured != "" ==> ttl == configured
    ensures configured == "" ==> ttl == "600"
  {
    if configured == "" then "600" else configured
  }

  class Dnspod {
    var dnsConfig: DnsConfig
    var domains: Domains
    var ttl: string
    /** The HTTP client every call goes through. */
    const transport: Transport

    constructor (domains: Domains, transport: Transport)
      ensures this.domains == domains && this.transport == transport
      ensures dnsConfig == DnsConfig("", "") && ttl == ""
    {
      this.domains := domains;
      this.transport := transport;
      dnsConfig := DnsConfig("", "");
      ttl := "";
    }

    /** The provider, account and TTL every call of a run uses. */
    function Context(): Env
      reads this
    {
      Env(transport.answer, dnsConfig, ttl)
    }

    /** Takes the account and the TTL from the configuration. */
    method Init(conf: Config)
      modifies this
      ensures dnsConfig == conf.dns && domains == old(domains)
      ensures ttl == EffectiveTtl(conf.ttl)
    {
      dnsConfig := conf.dns;
      if conf.ttl == "" {
        ttl := "600";
      } else {
        ttl := conf.ttl;
      }
    }

    /** Reconciles the A records, then the AAAA records, and hands back the
        same domains, whose statuses now tell what was written; pa and pb are
        the two passes as the reference semantics describes them. */
    method AddUpdateDomainRecords() returns (r: Domains, ghost pa: Pass, ghost pb: Pass)
      requires transport.Valid()
      modifies transport, domains.ipv4Domains, domains.ipv6Domains
      ensures transport.Valid()
      ensures r == domains
      ensures var v4 := domains.GetNewIpResult(IPv4);
              pa == FamilySpec(Context(), old(transport.calls), RecordType(IPv4), v4.0, v4.1)
      ensures var v6 := domains.GetNewIpResult(IPv6);
              pb == FamilySpec(Context(), old(transport.calls) + |pa.requests|, RecordType(IPv6), v6.0, v6.1)
      ensures transport.log == old(transport.log) + pa.requests + pb.requests
      ensures StatusesAfterBoth(domains.ipv4Domains, pa.writes, domains.ipv6Domains, pb.writes)
    {
      ghost var ds4: seq<Domain> := domains.ipv4Domains;
      ghost var ds6: seq<Domain> := domains.ipv6Domains;
      pa := AddUpdateFamilyRecords(IPv4);
      label betweenFamilies:
      pb := AddUpdateFamilyRecords(IPv6);
      forall d | d in ds4 + ds6
        ensures d.updateStatus == Apply(ds6, pb.writes, |ds6|, d, Apply(ds4, pa.writes, |ds4|, d, old(d.updateStatus)))
      {
        var between := old@betweenFamilies(d.updateStatus);
        if d !in ds4 {
          ApplyUntouched(ds4, pa.writes, |ds4|, d, old(d.updateStatus));
        }
        if d !in ds6 {
          ApplyUntouched(ds6, pb.writes, |ds6|, d, between);
        }
      }
      r := domains;
    }

    /** One family's pass: nothing when its address is empty, otherwise
        the walk over its domains. */
    method AddUpdateFamilyRecords(f: Family) returns (ghost p: Pass)
      requires transport.Valid()
      modifies transport, domains.GetNewIpResult(f).1
      ensures transport.Valid()
      ensures p == FamilySpec(Context(), old(transport.calls), RecordType(f),
                              domains.GetNewIpResult(f).0, domains.GetNewIpResult(f).1)
      ensures transport.calls == old(transport.calls) + |p.requests|
      ensures transport.log == old(transport.log) + p.requests
      ensures StatusesAfter(domains.GetNewIpResult(f).1, p.writes, |domains.GetNewIpResult(f).1|)
    {
      var recordType := RecordType(f);
      var ipAddr := domains.GetNewIpResult(f).0;
      var ds := domains.GetNewIpResult(f).1;
      p := FamilySpec(Context(), transport.calls, recordType, ipAddr, ds);
      if ipAddr == "" {
        forall k | 0 <= k < |ds|
          ensures Apply(ds, p.writes, |ds|, ds[k], ds[k].updateStatus) == ds[k].updateStatus
        {
          FamilyEmptyIpIsNoop(Context(), transport.calls, recordType, ds, ds[k], ds[k].updateStatus);
        }
        return;
      }
      UpdateDomains(recordType, ipAddr, ds);
    }

    /** The walk over a family's domains: each in order is visited, and a
        failed list query ends the walk. */
    method UpdateDomains(recordType: string, ipAddr: string, ds: seq<Domain>)
      requires transport.Valid()
      modifies transport, ds
      ensures transport.Valid()
      ensures var p := PassSpec(Context(), old(transport.calls), recordType, ipAddr, ds, |ds|);
              transport.log == old(transport.log) + p.requests &&
              StatusesAfter(ds, p.writes, |ds|)
    {
      ghost var x := Context();
      ghost var n0 := transport.calls;
      ghost var p := PassSpec(x, n0, recordType, ipAddr, ds, 0);
      for i := 0 to |ds|
        invariant transport.Valid() && Context() == x
        invariant p == PassSpec(x, n0, recordType, ipAddr, ds, i) && !p.aborted
        invariant transport.log == old(transport.log) + p.requests
        invariant transport.calls == n0 + |p.requests|
        invariant StatusesAfter(ds, p.writes, i)
      {
        var domain := ds[i];
        ghost var v := VisitSpec(x, transport.calls, domain, recordType, ipAddr);
        PassStep(x, n0, recordType, ipAddr, ds, i, p, transport.calls);
        var listFailed := VisitDomain(domain, recordType, ipAddr);
        SeqAssoc(old(transport.log), p.requests, v.requests);
        forall k | 0 <= k < |ds|
          ensures ds[k].updateStatus == Apply(ds, p.writes + [v.write], i + 1, ds[k], old(ds[k].updateStatus))
        {
          ApplyStep(ds, p.writes, v.write, ds[k], old(ds[k].updateStatus));
        }
        p := Pass(p.requests + v.requests, p.writes + [v.write], v.aborted);
        if listFailed {
          AbortIsFinal(x, n0, recordType, ipAddr, ds, i + 1, |ds|);
          forall k | 0 <= k < |ds|
            ensures ds[k].updateStatus
                 == Apply(ds, PassSpec(x, n0, recordType, ipAddr, ds, |ds|).writes, |ds|, ds[k], old(ds[k].updateStatus))
          {
            AbortKeepsStatuses(x, n0, recordType, ipAddr, ds, i + 1, ds[k], old(ds[k].updateStatus));
          }
          return;
        }
      }
    }

    /** One domain of a pass: lists its records of the type, then modifies
        them when there are some or creates one when there are none; answers
        whether the list query failed, which ends the pass. */
    method VisitDomain(domain: Domain, recordType: string, ipAddr: string) returns (listFailed: bool)
      requires transport.Valid()
      modifies transport, domain
      ensures transport.Valid()
      ensures var v := VisitSpec(Context(), old(transport.calls), domain, recordType, ipAddr);
              transport.log == old(transport.log) + v.requests &&
              domain.updateStatus == v.write.Over(old(domain.updateStatus)) &&
              listFailed == v.aborted
    {
      var result := GetRecordList(domain, recordType);
      if result.err {
        return true;
      }
      if |result.records| > 0 {
        Modify(result, domain, recordType, ipAddr);
      } else {
        Create(domain, recordType, ipAddr);
      }
      return false;
    }

    /** Creates the record; the domain's status tells whether the provider
        accepted it. */
    method Create(domain: Domain, recordType: string, ipAddr: string)
      requires transport.Valid()
      modifies transport, domain
      ensures transport.Valid()
      ensures var req := CreateRequest(Context(), domain, recordType, ipAddr);
              transport.log == old(transport.log) + [req] &&
              domain.updateStatus == Outcome(transport.answer(old(transport.calls), req))
    {
      var status := CommonRequest(RecordCreate,
                                  CreateFields(dnsConfig, domain.domainName, domain.subDomain, recordType, ipAddr, ttl));
      if !status.err && status.code == "1" {
        domain.updateStatus := Success;
      } else {
        domain.updateStatus := Failed;
      }
    }

    /** Points every listed record that does not already hold the address at
        it, in list order; each write overwrites the domain's status. */
    method Modify(result: Reply, domain: Domain, recordType: string, ipAddr: string)
      requires transport.Valid()
      modifies transport, domain
      ensures transport.Valid()
      ensures var s := ModifySpec(Context(), old(transport.calls), domain, recordType, ipAddr,
                                  result.records, |result.records|);
              transport.log == old(transport.log) + s.requests &&
              domain.updateStatus == s.write.Over(old(domain.updateStatus))
    {
      var records := result.records;
      ghost var x := Context();
      ghost var n0 := transport.calls;
      for i := 0 to |records|
        invariant transport.Valid() && Context() == x
        invariant var s := ModifySpec(x, n0, domain, recordType, ipAddr, records, i);
                  transport.log == old(transport.log) + s.requests &&
                  domain.updateStatus == s.write.Over(old(domain.updateStatus))
      {
        var record := records[i];
        if record.value == ipAddr {
          continue;
        }
        var status := CommonRequest(RecordModify,
                                    ModifyFields(dnsConfig, domain.domainName, domain.subDomain, recordType,
                                                 record.id, ipAddr, ttl));
        if !status.err && status.code == "1" {
          domain.updateStatus := Success;
        } else {
          domain.updateStatus := Failed;
        }
      }
    }

    /** Posts one form to one endpoint. */
    method CommonRequest(endpoint: Endpoint, values: Fields) returns (status: Reply)
      requires transport.Valid()
      modifies transport
      ensures transport.Valid()
      ensures transport.log == old(transport.log) + [Request(endpoint, values)]
      ensures status == transport.answer(old(transport.calls), Request(endpoint, values))
    {
      status := transport.Post(Request(endpoint, values));
    }

    /** Lists the records of the domain's name and type. */
    method GetRecordList(domain: Domain, recordType: string) returns (result: Reply)
      requires transport.Valid()
      modifies transport
      ensures transport.Valid()
      ensures transport.log == old(transport.log) + [ListRequest(dnsConfig, domain, recordType)]
      ensures result == transport.answer(old(transport.calls), ListRequest(dnsConfig, domain, recordType))
    {
      var values := ListFields(dnsConfig, domain.domainName, domain.subDomain, recordType);
      result := transport.Post(Request(RecordList, values));
    }
  }
}
