# DNSPod provider of ddns-go, modelled in Dafny

ddns-go keeps a host's DNS records in line with its current IPv4 and IPv6
addresses. This project models its DNSPod provider, `dns/dnspod.go`, the
part that reconciles one provider's records:

- `Init` takes the account and the TTL, which defaults to `"600"`.
- `AddUpdateDomainRecords` runs one pass for the A records, then one for
  the AAAA records.
  - A pass does nothing when the family has no address.
  - Otherwise it walks the family's domains in order. For each it lists
    the records of that name and type: it creates one when there are none,
    and modifies every record that does not already hold the address when
    there are some.
  - A failed list query ends the pass.
- Every create or modify call sets the domain's `UpdateStatus` to
  Success or Failed. A later call overwrites an earlier one.

Files (one module each):

- `config.dfy` (`Config`) holds the entities the provider reads and
  updates.
  - `Domain` is a class whose `updateStatus` changes in place.
  - `Domains` carries the two addresses and their domain lists.
  - `GetNewIpResult` picks a family's address and domains.
- `requests.dfy` (`Requests`) builds the form fields of the three API
  calls as maps. It also has the credential value `id,secret` and how it
  reads back.
- `provider.dfy` (`Provider`) stands in for HTTP. A `Transport` object
  answers each call through an oracle, a function of the call's index and
  its request. It also appends the request to a ghost log of everything
  issued.
- `reconcile.dfy` (`Reconcile`) is the reference semantics: pure functions
  of the oracle saying which requests a pass issues, in which order, and
  which status each domain is left with. It also holds the lemmas that
  state the provider's promises about them.
- `dnspod.dfy` (`Dnspod`) is the provider itself as a class with
  imperative methods. Each method is proved to issue exactly the requests
  of the reference semantics and to leave exactly its statuses.
  - The loop body of `addUpdateDomainRecords` is a method of its own,
    `VisitDomain`.
  - The loop over the domains is `UpdateDomains`.

## Model

| member | source | states |
|---|---|---|
| Dnspod.EffectiveTtl | dns/dnspod.go:50-55 | the TTL in use is never empty: the configured one when there is one, "600" otherwise |
| Dnspod.Dnspod.Init | dns/dnspod.go:47-56 | the account is the configured one, the TTL is EffectiveTtl of the configured TTL, and the domains are not changed |
| Dnspod.Dnspod.AddUpdateDomainRecords | dns/dnspod.go:59-63 | the A pass comes first and the AAAA pass follows, its calls numbered after the A pass's. The log is the A requests, then the AAAA requests. Every domain of either list ends with the AAAA writes applied on top of the A writes. The same domains value is returned |
| Dnspod.Dnspod.AddUpdateFamilyRecords | dns/dnspod.go:65-86 | one family's pass issues exactly the requests FamilySpec gives and leaves every domain of the family with the status those writes give. With an empty address that means no request and no change |
| Dnspod.Dnspod.UpdateDomains | dns/dnspod.go:72-85 | the walk over the domains issues exactly PassSpec's requests, in order, and leaves the statuses its writes give, including when a failed list query ends it early |
| Dnspod.Dnspod.VisitDomain | dns/dnspod.go:73-84 | one domain: its requests are VisitSpec's, its status is VisitSpec's write over the old one, and it answers "stop" exactly when the list query failed |
| Dnspod.Dnspod.Create | dns/dnspod.go:89-111 | issues exactly one create request, built from the account, the domain, the type, the address and the TTL. The status is the Outcome of that call's answer |
| Dnspod.Dnspod.Modify | dns/dnspod.go:114-144 | the loop over the listed records issues exactly ModifySpec's requests and leaves ModifySpec's last write on the domain, or the old status when nothing was written |
| Dnspod.Dnspod.CommonRequest | dns/dnspod.go:147-156 | posts exactly one request with the given endpoint and fields and returns the provider's answer to it |
| Dnspod.Dnspod.GetRecordList | dns/dnspod.go:159-177 | posts exactly one list request with the five list fields and returns the provider's answer to it |
| Provider.Transport.Post | dns/dnspod.go:148-153 | one HTTP call: the request is appended to the log and the answer is the oracle's for that call index |
| Requests.CreateFieldsCarry | dns/dnspod.go:92-101 | a create call carries exactly eight fields: value is the address, ttl the TTL, record_type the type, login_token is id then "," then secret, plus the domain and sub-domain |
| Requests.ModifyFieldsExtendCreate | dns/dnspod.go:123-133 | a modify call's fields are the create call's fields plus record_id, which the create call lacks |
| Requests.ListFieldsWithinCreate | dns/dnspod.go:160-166 | the list query's fields are the create call's minus record_line, value and ttl, with the same values |
| Requests.LoginTokenRoundTrip | dns/dnspod.go:93 | when the identity holds no comma, splitting the credential value at its first comma gives back the identity and the secret |
| Reconcile.Outcome | dns/dnspod.go:104-110 | a write's status is never Unset, and it is Success if and only if the call did not fail and the code is "1" |
| Reconcile.Differing | dns/dnspod.go:115-120 | the records that get a modify call are at most the records listed |
| Reconcile.DifferingExactly | dns/dnspod.go:115-120 | a record gets a modify call if and only if its value differs from the address: every kept record differs and comes from the list, and every differing listed record is kept |
| Reconcile.ModifySpec | dns/dnspod.go:115-143 | at most one call per listed record, and the status is written if and only if some call was made |
| Reconcile.ModifyIssuesOnePerDiffering | dns/dnspod.go:121-135 | modify issues exactly one request per differing record, in list order, each carrying that record's id as record_id |
| Reconcile.ModifyLastWriteWins | dns/dnspod.go:136-143 | the status after modify is the Outcome of the last differing record's call, with no aggregation over the others. With no differing record nothing is issued or written |
| Reconcile.ModifyAllMatchIsNoop | dns/dnspod.go:115-120 | when every listed record already holds the address, modify issues nothing and leaves the status as it was |
| Reconcile.VisitBranches | dns/dnspod.go:78-84 | after the list query exactly one path runs. A failed query issues nothing more and stops the pass. An empty list gives exactly one create call. A non-empty list gives only modify calls, at most one per record |
| Reconcile.PassSpec | dns/dnspod.go:72-85 | the walk over the first m domains has exactly one write, possibly none at all, per domain |
| Reconcile.PassStep | dns/dnspod.go:72-85 | one more domain extends an unstopped walk by exactly that domain's visit |
| Reconcile.FamilySpec | dns/dnspod.go:66-70 | a family's pass has one write per domain of the family |
| Reconcile.NoWrites | dns/dnspod.go:68-70 | an empty address gives one no-write per domain |
| Reconcile.FamilyEmptyIpIsNoop | dns/dnspod.go:66-70 | with an empty address a pass issues no request and changes no domain's status |
| Reconcile.ListFailureStopsPass | dns/dnspod.go:72-76 | if the i-th domain's list query fails, that query is the pass's last request, and that domain and every later one keeps its status |
| Reconcile.PassStopsAt | dns/dnspod.go:73-76 | the failed list query stops the walk at that domain without a write |
| Reconcile.AbortIsFinal | dns/dnspod.go:73-76 | once stopped, the walk issues no more requests and writes no later domain |
| Reconcile.AbortKeepsStatuses | dns/dnspod.go:73-76 | the statuses a stopped walk leaves are the ones it left when it stopped |
| Reconcile.ApplyUntouched | dns/dnspod.go:72-85 | a domain that no visit wrote keeps its status |
| Reconcile.ApplyLastWrite | dns/dnspod.go:72-85 | a domain listed several times ends with the status of its last writing visit |
| Reconcile.ConvergedPassOnlyLists | dns/dnspod.go:72-85 | idempotence: against a provider that already holds the address in every listed record, a pass issues only the list queries, one per domain in order, and writes no status |

## Left out

- HTTP is replaced by the oracle. That covers `http.PostForm`, the
  10-second client timeout and the endpoint URLs. Only the endpoint kind of
  each call is kept.
- `util.GetHTTPResponse` (JSON decoding and the HTTP status check) is not
  part of this model. Its result is part of the oracle's answer: the `err`
  flag, the status code and message, and the listed records.
- `Domains.GetNewIp` (address discovery) is not modelled, so `Init` does
  not discover addresses. The addresses and domain lists are inputs of
  `Domains`.
- `Domain.GetSubDomain` is a fixed field of each domain.
- `log.Printf` messages have no effect on state and are not modelled.
- The `Name`, `Type` and `Enabled` fields of listed records are never
  read and are not kept.
- The `result` parameter of `create` and the `domain` parameter of
  `commonRequest` are unused by the source and are dropped.
- Record types are passed as the family (`IPv4`/`IPv6`) and turned into
  "A"/"AAAA" by `RecordType`. The source passes the strings.
- Reconcile.PassSpec: its own contract fixes only the number of writes. What
  the walk does is stated by the lemmas about it in the table above.
- Reconcile.FamilySpec: its own contract fixes only the number of writes.
  The empty-address case is stated by FamilyEmptyIpIsNoop.
