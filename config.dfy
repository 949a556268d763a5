/** The configuration-side entities that the DNSPod provider reads and
    updates: account credentials, the configured TTL, the managed domains
    and the per-domain outcome flag. */
module Config {

  /** Outcome of the last write attempted for a domain in a run. */
  datatype UpdateStatus = Unset | Success | Failed

  /** Provider account: the identity and the secret token. */
  datatype DnsConfig = DnsConfig(id: string, secret: string)

  /** The part of the run's configuration that the provider reads. */
  datatype Config = Config(dns: DnsConfig, ttl: string)

  /** One managed name. Its sub-domain (what GetSubDomain answers) is an
      input fixed when the domain is built; only the status changes. */
  class Domain {
    const domainName: string
    const subDomain: string
    var updateStatus: UpdateStatus

    constructor (domainName: string, subDomain: string, updateStatus: UpdateStatus)
      ensures this.domainName == domainName && this.subDomain == subDomain
      ensures this.updateStatus == updateStatus
    {
      this.domainName := domainName;
      this.subDomain := subDomain;
      this.updateStatus := updateStatus;
    }
  }

  /** Address family, named on the wire by its record type. */
  datatype Family = IPv4 | IPv6

  function RecordType(f: Family): string
  {
    match f
    case IPv4 => "A"
    case IPv6 => "AAAA"
  }

  /** The discovered addresses and the domains that should carry each one.
      An empty address means the family is unavailable on this host. */
  datatype Domains = Domains(ipv4Addr: string, ipv4Domains: seq<Domain>,
                             ipv6Addr: string, ipv6Domains: seq<Domain>)
  {
    /** The desired address of a family and the domains that should receive it. */
    function GetNewIpResult(f: Family): (string, seq<Domain>)
    {
      match f
      case IPv4 => (ipv4Addr, ipv4Domains)
      case IPv6 => (ipv6Addr, ipv6Domains)
    }
  }
}
