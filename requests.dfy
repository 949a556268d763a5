/** The form fields of the three DNSPod API calls: list, create and modify. */
module Requests {
  import opened Config

  /** The three API endpoints; their URLs are not part of the model. */
  datatype Endpoint = RecordList | RecordModify | RecordCreate

  /** A form-encoded body: every field in these calls carries one value. */
  type Fields = map<string, string>

  /** One request as issued: where it went and what it carried. */
  datatype Request = Request(endpoint: Endpoint, fields: Fields)

  /** The provider's name for its default resolution line. */
  const DefaultLine: string := "\U{9ED8}\U{8BA4}"

  /** The single credential value: identity, a comma, then the secret. */
  function LoginToken(c: DnsConfig): string
  {
    c.id + "," + c.secret
  }

  /** Fields of the record-list query. */
  function ListFields(c: DnsConfig, domainName: string, subDomain: string, recordType: string): Fields
  {
    map["login_token" := LoginToken(c),
        "domain" := domainName,
        "record_type" := recordType,
        "sub_domain" := subDomain,
        "format" := "json"]
  }

  /** Fields of the record-create call. */
  function CreateFields(c: DnsConfig, domainName: string, subDomain: string, recordType: string,
                        ipAddr: string, ttl: string): Fields
  {
    map["login_token" := LoginToken(c),
        "domain" := domainName,
        "sub_domain" := subDomain,
        "record_type" := recordType,
        "record_line" := DefaultLine,
        "value" := ipAddr,
        "ttl" := ttl,
        "format" := "json"]
  }

  /** Fields of the record-modify call. */
  function ModifyFields(c: DnsConfig, domainName: string, subDomain: string, recordType: string,
                        recordId: string, ipAddr: string, ttl: string): Fields
  {
    map["login_token" := LoginToken(c),
        "domain" := domainName,
        "sub_domain" := subDomain,
        "record_type" := recordType,
        "record_line" := DefaultLine,
        "record_id" := recordId,
        "value" := ipAddr,
        "ttl" := ttl,
        "format" := "json"]
  }

  /** A create call carries the desired address, the TTL, the record type
      and the credential, and names no existing record. */
  lemma CreateFieldsCarry(c: DnsConfig, domainName: string, subDomain: string, recordType: string,
                          ipAddr: string, ttl: string)
    ensures var m := CreateFields(c, domainName, subDomain, recordType, ipAddr, ttl);
            m.Keys == {"login_token", "domain", "sub_domain", "record_type", "record_line", "value", "ttl", "format"} &&
            m["value"] == ipAddr && m["ttl"] == ttl && m["record_type"] == recordType &&
            m["login_token"] == c.id + "," + c.secret &&
            m["domain"] == domainName && m["sub_domain"] == subDomain
  {
  }

  /** A modify call is the create call for the same record plus the id of
      the record to overwrite. */
  lemma ModifyFieldsExtendCreate(c: DnsConfig, domainName: string, subDomain: string, recordType: string,
                                 recordId: string, ipAddr: string, ttl: string)
    ensures "record_id" !in CreateFields(c, domainName, subDomain, recordType, ipAddr, ttl)
    ensures ModifyFields(c, domainName, subDomain, recordType, recordId, ipAddr, ttl)
         == CreateFields(c, domainName, subDomain, recordType, ipAddr, ttl)["record_id" := recordId]
  {
  }

  /** The list query carries a subset of the create call's fields, with the
      same values: it names the same domain, sub-domain, type and account. */
  lemma ListFieldsWithinCreate(c: DnsConfig, domainName: string, subDomain: string, recordType: string,
                               ipAddr: string, ttl: string)
    ensures var l := ListFields(c, domainName, subDomain, recordType);
            var m := CreateFields(c, domainName, subDomain, recordType, ipAddr, ttl);
            l.Keys <= m.Keys &&
            (forall k :: k in l ==> l[k] == m[k]) &&
            m.Keys - l.Keys == {"record_line", "value", "ttl"}
  {
  }

  /** Index of the first comma of t, or |t| when there is none. */
  function FirstComma(t: string): (i: nat)
    ensures i <= |t|
    ensures forall k :: 0 <= k < i ==> t[k] != ','
    ensures i < |t| ==> t[i] == ','
  {
    if t == [] then 0
    else if t[0] == ',' then 0
    else 1 + FirstComma(t[1..])
  }

  /** How the provider reads a credential value: identity up to the first
      comma, secret after it. */
  function SplitLoginToken(t: string): DnsConfig
  {
    var i := FirstComma(t);
    if i < |t| then DnsConfig(t[..i], t[i + 1..]) else DnsConfig(t, "")
  }

  /** The credential value is unambiguous as long as the identity holds no
      comma: reading it back gives the identity and the secret. */
  lemma {:induction false} LoginTokenRoundTrip(c: DnsConfig)
    requires ',' !in c.id
    ensures SplitLoginToken(LoginToken(c)) == c
  {
    FirstCommaAfter(c.id, c.secret);
    var t := LoginToken(c);
    assert t[..|c.id|] == c.id;
    assert t[|c.id| + 1..] == c.secret;
  }

  lemma {:induction false} FirstCommaAfter(id: string, rest: string)
    requires ',' !in id
    ensures FirstComma(id + "," + rest) == |id|
  {
    if id != [] {
      assert (id + "," + rest)[1..] == id[1..] + "," + rest;
      FirstCommaAfter(id[1..], rest);
    }
  }
}
