/** Reference semantics of one reconciliation, as functions of the
    provider's answers: which requests are issued, in which order, and which
    status each visited domain is left with. The imperative provider in
    module Dnspod is proved to follow these functions.

    The functions that walk a list take the length of the prefix walked so
    far (m), so that one more step of a loop is one more unfolding. */
module Reconcile {
  import opened Config
  import opened Requests
  import opened Provider

  /** What a run reads besides the domains: the provider, the account and the TTL. */
  datatype Env = Env(answer: Oracle, cred: DnsConfig, ttl: string)

  function ListRequest(cred: DnsConfig, d: Domain, recordType: string): Request
  {
    Request(RecordList, ListFields(cred, d.domainName, d.subDomain, recordType))
  }

  function CreateRequest(x: Env, d: Domain, recordType: string, ipAddr: string): Request
  {
    Request(RecordCreate, CreateFields(x.cred, d.domainName, d.subDomain, recordType, ipAddr, x.ttl))
  }

  function ModifyRequest(x: Env, d: Domain, recordType: string, ipAddr: string, recordId: string): Request
  {
    Request(RecordModify, ModifyFields(x.cred, d.domainName, d.subDomain, recordType, recordId, ipAddr, x.ttl))
  }

  /** The status a write leaves on its domain: Success exactly when the call
      did not fail and the provider answered code "1"; never Unset. */
  function Outcome(reply: Reply): (s: UpdateStatus)
    ensures s != Unset
    ensures s == Success <==> !reply.err && reply.code == "1"
  {
    if !reply.err && reply.code == "1" then Success else Failed
  }

  /** What a step did to a domain's status: nothing, or a last write. */
  datatype Write = Untouched | Wrote(status: UpdateStatus)
  {
    function Over(s: UpdateStatus): UpdateStatus
    {
      if Wrote? then status else s
    }
  }

  /** The requests a create or modify issued, and its last write. */
  datatype Step = Step(requests: seq<Request>, write: Write)

  /** The create path, as the n-th call. */
  function CreateSpec(x: Env, n: nat, d: Domain, recordType: string, ipAddr: string): Step
  {
    var req := CreateRequest(x, d, recordType, ipAddr);
    Step([req], Wrote(Outcome(x.answer(n, req))))
  }

  // ---------------------------------------------------------------------
  // The modify path

  /** The first m listed records whose value differs from the desired
      address, in list order. */
  function Differing(records: seq<Record>, ipAddr: string, m: nat): (r: seq<Record>)
    requires m <= |records|
    ensures |r| <= m
    decreases m
  {
    if m == 0 then []
    else
      var last := records[m - 1];
      Differing(records, ipAddr, m - 1) + (if last.value == ipAddr then [] else [last])
  }

  /** Differing keeps exactly the records whose value is not the address. */
  lemma {:induction false} DifferingExactly(records: seq<Record>, ipAddr: string, m: nat)
    requires m <= |records|
    ensures var r := Differing(records, ipAddr, m);
            (forall k :: 0 <= k < |r| ==> r[k].value != ipAddr && r[k] in records[..m]) &&
            (forall k :: 0 <= k < m && records[k].value != ipAddr ==> records[k] in r)
    decreases m
  {
    if m > 0 {
      DifferingExactly(records, ipAddr, m - 1);
      var r0 := Differing(records, ipAddr, m - 1);
      var r := Differing(records, ipAddr, m);
      assert records[..m] == records[..m - 1] + [records[m - 1]];
      forall k | 0 <= k < |r| ensures r[k].value != ipAddr && r[k] in records[..m] {
        if k < |r0| {
          assert r[k] == r0[k];
        }
      }
      forall k | 0 <= k < m && records[k].value != ipAddr ensures records[k] in r {
        if k < m - 1 {
          assert records[k] in r0;
        }
      }
    }
  }

  /** One modify request per record, each naming its record. */
  function ModifyRequests(x: Env, d: Domain, recordType: string, ipAddr: string, records: seq<Record>): seq<Request>
  {
    seq(|records|, k requires 0 <= k < |records| => ModifyRequest(x, d, recordType, ipAddr, records[k].id))
  }

  /** The modify path over the first m listed records, its first call being the n-th. */
  function ModifySpec(x: Env, n: nat, d: Domain, recordType: string, ipAddr: string,
                      records: seq<Record>, m: nat): (s: Step)
    requires m <= |records|
    ensures |s.requests| <= m
    ensures s.write.Untouched? <==> s.requests == []
    decreases m
  {
    if m == 0 then Step([], Untouched)
    else
      var prev := ModifySpec(x, n, d, recordType, ipAddr, records, m - 1);
      var last := records[m - 1];
      if last.value == ipAddr then prev
      else
        var req := ModifyRequest(x, d, recordType, ipAddr, last.id);
        Step(prev.requests + [req], Wrote(Outcome(x.answer(n + |prev.requests|, req))))
  }

  lemma ModifyRequestsSnoc(x: Env, d: Domain, recordType: string, ipAddr: string, records: seq<Record>, r: Record)
    ensures ModifyRequests(x, d, recordType, ipAddr, records + [r])
         == ModifyRequests(x, d, recordType, ipAddr, records) + [ModifyRequest(x, d, recordType, ipAddr, r.id)]
  {
    var a := ModifyRequests(x, d, recordType, ipAddr, records + [r]);
    var b := ModifyRequests(x, d, recordType, ipAddr, records) + [ModifyRequest(x, d, recordType, ipAddr, r.id)];
    assert |a| == |b|;
    forall k | 0 <= k < |a| ensures a[k] == b[k] {
      if k < |records| {
        assert (records + [r])[k] == records[k];
      }
    }
  }

  /** The modify path issues exactly one request per record whose value
      differs, in list order, each carrying that record's id; records that
      already hold the address cause no request. */
  lemma {:induction false} ModifyIssuesOnePerDiffering(x: Env, n: nat, d: Domain, recordType: string, ipAddr: string,
                                                       records: seq<Record>, m: nat)
    requires m <= |records|
    ensures ModifySpec(x, n, d, recordType, ipAddr, records, m).requests
         == ModifyRequests(x, d, recordType, ipAddr, Differing(records, ipAddr, m))
    decreases m
  {
    if m > 0 {
      ModifyIssuesOnePerDiffering(x, n, d, recordType, ipAddr, records, m - 1);
      if records[m - 1].value != ipAddr {
        ModifyRequestsSnoc(x, d, recordType, ipAddr, Differing(records, ipAddr, m - 1), records[m - 1]);
      } else {
        assert Differing(records, ipAddr, m) == Differing(records, ipAddr, m - 1);
      }
    }
  }

  /** Last write wins: the modify path leaves the outcome of the last
      differing record's call, with no aggregation over the others; when no
      record differs it issues nothing and writes nothing. */
  lemma {:induction false} ModifyLastWriteWins(x: Env, n: nat, d: Domain, recordType: string, ipAddr: string,
                                               records: seq<Record>, m: nat)
    requires m <= |records|
    ensures var s := ModifySpec(x, n, d, recordType, ipAddr, records, m);
            var diff := Differing(records, ipAddr, m);
            if diff == [] then s == Step([], Untouched)
            else s.write == Wrote(Outcome(x.answer(n + |diff| - 1,
                                                   ModifyRequest(x, d, recordType, ipAddr, diff[|diff| - 1].id))))
    decreases m
  {
    if m > 0 {
      var d0 := Differing(records, ipAddr, m - 1);
      var last := records[m - 1];
      if last.value == ipAddr {
        ModifyLastWriteWins(x, n, d, recordType, ipAddr, records, m - 1);
        assert Differing(records, ipAddr, m) == d0;
      } else {
        var prev := ModifySpec(x, n, d, recordType, ipAddr, records, m - 1);
        ModifyIssuesOnePerDiffering(x, n, d, recordType, ipAddr, records, m - 1);
        assert |prev.requests| == |d0|;
        var diff := Differing(records, ipAddr, m);
        assert diff == d0 + [last];
        assert diff[|diff| - 1] == last;
      }
    }
  }

  /** When every listed record already holds the address, the modify path
      issues no request and leaves the status as it was. */
  lemma ModifyAllMatchIsNoop(x: Env, n: nat, d: Domain, recordType: string, ipAddr: string, records: seq<Record>)
    requires forall k :: 0 <= k < |records| ==> records[k].value == ipAddr
    ensures ModifySpec(x, n, d, recordType, ipAddr, records, |records|) == Step([], Untouched)
  {
    DifferingNone(records, ipAddr, |records|);
    ModifyLastWriteWins(x, n, d, recordType, ipAddr, records, |records|);
  }

  lemma {:induction false} DifferingNone(records: seq<Record>, ipAddr: string, m: nat)
    requires m <= |records|
    requires forall k :: 0 <= k < m ==> records[k].value == ipAddr
    ensures Differing(records, ipAddr, m) == []
    decreases m
  {
    if m > 0 {
      DifferingNone(records, ipAddr, m - 1);
    }
  }

  // ---------------------------------------------------------------------
  // One domain

  /** What visiting one domain did: the requests, its write, and whether the
      list query failed (which ends the family's pass). */
  datatype Visit = Visit(requests: seq<Request>, write: Write, aborted: bool)

  /** The path a successful list answer selects, its first call being the n-th. */
  function WriteSpec(x: Env, n: nat, d: Domain, recordType: string, ipAddr: string, records: seq<Record>): Step
  {
    if |records| > 0 then ModifySpec(x, n, d, recordType, ipAddr, records, |records|)
    else CreateSpec(x, n, d, recordType, ipAddr)
  }

  /** One domain, its list query being the n-th call. */
  function VisitSpec(x: Env, n: nat, d: Domain, recordType: string, ipAddr: string): Visit
  {
    var lr := ListRequest(x.cred, d, recordType);
    var reply := x.answer(n, lr);
    if reply.err then Visit([lr], Untouched, true)
    else
      var s := WriteSpec(x, n + 1, d, recordType, ipAddr, reply.records);
      Visit([lr] + s.requests, s.write, false)
  }

  /** After a list query, exactly one path runs: a failed query issues
      nothing more; an empty list leads to one create call; a non-empty list
      leads only to modify calls, at most one per record. */
  lemma VisitBranches(x: Env, n: nat, d: Domain, recordType: string, ipAddr: string)
    ensures var lr := ListRequest(x.cred, d, recordType);
            var reply := x.answer(n, lr);
            var v := VisitSpec(x, n, d, recordType, ipAddr);
            |v.requests| >= 1 && v.requests[0] == lr &&
            (reply.err ==> v == Visit([lr], Untouched, true)) &&
            (!reply.err && |reply.records| == 0 ==>
               var cr := CreateRequest(x, d, recordType, ipAddr);
               v == Visit([lr, cr], Wrote(Outcome(x.answer(n + 1, cr))), false)) &&
            (!reply.err && |reply.records| > 0 ==>
               !v.aborted && |v.requests| <= 1 + |reply.records| &&
               forall k :: 1 <= k < |v.requests| ==> v.requests[k].endpoint == RecordModify)
  {
    var reply := x.answer(n, ListRequest(x.cred, d, recordType));
    if !reply.err && |reply.records| > 0 {
      ModifyIssuesOnePerDiffering(x, n + 1, d, recordType, ipAddr, reply.records, |reply.records|);
    }
  }

  // ---------------------------------------------------------------------
  // One family's pass over its domains

  /** A pass: the requests issued, one write per visited or skipped domain,
      and whether a failed list query stopped it. */
  datatype Pass = Pass(requests: seq<Request>, writes: seq<Write>, aborted: bool)

  /** The pass over the first m domains, its first call being the n-th. */
  function PassSpec(x: Env, n: nat, recordType: string, ipAddr: string, ds: seq<Domain>, m: nat): (p: Pass)
    requires m <= |ds|
    ensures |p.writes| == m
    decreases m
  {
    if m == 0 then Pass([], [], false)
    else
      var prev := PassSpec(x, n, recordType, ipAddr, ds, m - 1);
      if prev.aborted then Pass(prev.requests, prev.writes + [Untouched], true)
      else
        var v := VisitSpec(x, n + |prev.requests|, ds[m - 1], recordType, ipAddr);
        Pass(prev.requests + v.requests, prev.writes + [v.write], v.aborted)
  }

  /** n writes that change nothing. */
  function NoWrites(n: nat): (ws: seq<Write>)
    ensures |ws| == n
    ensures forall j :: 0 <= j < n ==> ws[j] == Untouched
  {
    if n == 0 then [] else NoWrites(n - 1) + [Untouched]
  }

  /** A family's pass: nothing at all when the desired address is empty. */
  function FamilySpec(x: Env, n: nat, recordType: string, ipAddr: string, ds: seq<Domain>): (p: Pass)
    ensures |p.writes| == |ds|
  {
    if ipAddr == "" then Pass([], NoWrites(|ds|), false)
    else PassSpec(x, n, recordType, ipAddr, ds, |ds|)
  }

  /** One more domain extends the pass by its visit, unless the pass had
      already stopped: prev is the pass so far, c the index of the visit's
      first call. */
  lemma PassStep(x: Env, n: nat, recordType: string, ipAddr: string, ds: seq<Domain>, i: nat,
                 prev: Pass, c: nat)
    requires i < |ds|
    requires prev == PassSpec(x, n, recordType, ipAddr, ds, i) && !prev.aborted
    requires c == n + |prev.requests|
    ensures var v := VisitSpec(x, c, ds[i], recordType, ipAddr);
            PassSpec(x, n, recordType, ipAddr, ds, i + 1) == Pass(prev.requests + v.requests, prev.writes + [v.write], v.aborted)
  {
  }

  lemma SeqAssoc<T>(a: seq<T>, b: seq<T>, c: seq<T>)
    ensures a + b + c == a + (b + c)
  {
  }

  // ---------------------------------------------------------------------
  // Statuses after a pass

  /** The status of d after the first m writes of a pass over ds, starting from s. */
  function Apply(ds: seq<Domain>, writes: seq<Write>, m: nat, d: Domain, s: UpdateStatus): UpdateStatus
    requires m <= |ds| && m <= |writes|
    decreases m
  {
    if m == 0 then s
    else
      var before := Apply(ds, writes, m - 1, d, s);
      if ds[m - 1] == d then writes[m - 1].Over(before) else before
  }

  /** Only the first m writes matter. */
  lemma {:induction false} ApplyPrefix(ds: seq<Domain>, writes: seq<Write>, more: seq<Write>, m: nat, d: Domain, s: UpdateStatus)
    requires m <= |ds| && m <= |writes|
    ensures Apply(ds, writes + more, m, d, s) == Apply(ds, writes, m, d, s)
    decreases m
  {
    if m > 0 {
      ApplyPrefix(ds, writes, more, m - 1, d, s);
      assert (writes + more)[m - 1] == writes[m - 1];
    }
  }

  /** The status after one more visit: that visit's write, if it was to d. */
  lemma ApplyStep(ds: seq<Domain>, writes: seq<Write>, w: Write, d: Domain, s: UpdateStatus)
    requires |writes| < |ds|
    ensures var i := |writes|;
            Apply(ds, writes + [w], i + 1, d, s)
            == (if ds[i] == d then w.Over(Apply(ds, writes, i, d, s)) else Apply(ds, writes, i, d, s))
  {
    ApplyPrefix(ds, writes, [w], |writes|, d, s);
  }

  /** A domain none of whose visits wrote keeps its status. */
  lemma {:induction false} ApplyUntouched(ds: seq<Domain>, writes: seq<Write>, m: nat, d: Domain, s: UpdateStatus)
    requires m <= |ds| && m <= |writes|
    requires forall j :: 0 <= j < m && ds[j] == d ==> writes[j] == Untouched
    ensures Apply(ds, writes, m, d, s) == s
    decreases m
  {
    if m > 0 {
      ApplyUntouched(ds, writes, m - 1, d, s);
    }
  }

  /** A domain's final status is the one its last writing visit left. */
  lemma {:induction false} ApplyLastWrite(ds: seq<Domain>, writes: seq<Write>, m: nat, d: Domain, s: UpdateStatus, j: nat)
    requires m <= |ds| && m <= |writes|
    requires j < m && ds[j] == d && writes[j].Wrote?
    requires forall k :: j < k < m && ds[k] == d ==> writes[k] == Untouched
    ensures Apply(ds, writes, m, d, s) == writes[j].status
    decreases m
  {
    if j < m - 1 {
      ApplyLastWrite(ds, writes, m - 1, d, s, j);
    }
  }

  /** Every domain of ds holds the status that the first m writes leave on
      the one it held in the earlier state. */
  twostate predicate StatusesAfter(ds: seq<Domain>, writes: seq<Write>, m: nat)
    reads ds
  {
    m <= |ds| && m <= |writes| &&
    forall k :: 0 <= k < |ds| ==> ds[k].updateStatus == Apply(ds, writes, m, ds[k], old(ds[k].updateStatus))
  }

  /** The same across two passes, one over ds1 with writes w1, then one
      over ds2 with writes w2: a domain in both takes the second pass's
      writes on top of the first's. */
  twostate predicate StatusesAfterBoth(ds1: seq<Domain>, w1: seq<Write>, ds2: seq<Domain>, w2: seq<Write>)
    reads ds1, ds2
  {
    |ds1| <= |w1| && |ds2| <= |w2| &&
    forall d :: d in ds1 + ds2 ==>
      d.updateStatus == Apply(ds2, w2, |ds2|, d, Apply(ds1, w1, |ds1|, d, old(d.updateStatus)))
  }

  /** Untouched trailing visits change no status. */
  lemma {:induction false} ApplyIgnoresUntouchedSuffix(ds: seq<Domain>, writes: seq<Write>, m: nat, k: nat,
                                                       d: Domain, s: UpdateStatus)
    requires k <= m <= |ds| && m <= |writes|
    requires forall j :: k <= j < m ==> writes[j] == Untouched
    ensures Apply(ds, writes, m, d, s) == Apply(ds, writes, k, d, s)
    decreases m
  {
    if m > k {
      ApplyIgnoresUntouchedSuffix(ds, writes, m - 1, k, d, s);
    }
  }

  // ---------------------------------------------------------------------
  // Properties of a family's pass

  /** When the desired address is empty, the pass issues no request and
      changes no domain's status. */
  lemma FamilyEmptyIpIsNoop(x: Env, n: nat, recordType: string, ds: seq<Domain>, d: Domain, s: UpdateStatus)
    ensures FamilySpec(x, n, recordType, "", ds).requests == []
    ensures Apply(ds, FamilySpec(x, n, recordType, "", ds).writes, |ds|, d, s) == s
  {
    ApplyUntouched(ds, FamilySpec(x, n, recordType, "", ds).writes, |ds|, d, s);
  }

  /** Once the pass has stopped on a failed list query, the domains after
      it are not visited: no further request and no further write. */
  lemma {:induction false} AbortIsFinal(x: Env, n: nat, recordType: string, ipAddr: string, ds: seq<Domain>,
                                        m: nat, k: nat)
    requires m <= k <= |ds|
    requires PassSpec(x, n, recordType, ipAddr, ds, m).aborted
    ensures var p := PassSpec(x, n, recordType, ipAddr, ds, k);
            var q := PassSpec(x, n, recordType, ipAddr, ds, m);
            p.aborted && p.requests == q.requests && p.writes[..m] == q.writes &&
            forall j :: m <= j < k ==> p.writes[j] == Untouched
    decreases k
  {
    if k > m {
      AbortIsFinal(x, n, recordType, ipAddr, ds, m, k - 1);
      var p := PassSpec(x, n, recordType, ipAddr, ds, k);
      var p' := PassSpec(x, n, recordType, ipAddr, ds, k - 1);
      assert p.writes == p'.writes + [Untouched];
      assert p.writes[..m] == p'.writes[..m];
    }
  }

  /** Once the pass has stopped after m domains, the statuses it leaves are
      the ones it had left after those m. */
  lemma AbortKeepsStatuses(x: Env, n: nat, recordType: string, ipAddr: string, ds: seq<Domain>, m: nat,
                           d: Domain, s: UpdateStatus)
    requires m <= |ds|
    requires PassSpec(x, n, recordType, ipAddr, ds, m).aborted
    ensures Apply(ds, PassSpec(x, n, recordType, ipAddr, ds, |ds|).writes, |ds|, d, s)
         == Apply(ds, PassSpec(x, n, recordType, ipAddr, ds, m).writes, m, d, s)
  {
    AbortIsFinal(x, n, recordType, ipAddr, ds, m, |ds|);
    var p := PassSpec(x, n, recordType, ipAddr, ds, |ds|);
    var q := PassSpec(x, n, recordType, ipAddr, ds, m);
    ApplyIgnoresUntouchedSuffix(ds, p.writes, |ds|, m, d, s);
    ApplyPrefix(ds, q.writes, p.writes[m..], m, d, s);
    assert q.writes + p.writes[m..] == p.writes;
  }

  /** Fail-fast: if the list query of the i-th domain fails, that query is
      the pass's last request and neither that domain nor any later one is
      written. */
  lemma ListFailureStopsPass(x: Env, n: nat, recordType: string, ipAddr: string, ds: seq<Domain>, i: nat)
    requires i < |ds|
    requires !PassSpec(x, n, recordType, ipAddr, ds, i).aborted
    requires var q := PassSpec(x, n, recordType, ipAddr, ds, i);
             x.answer(n + |q.requests|, ListRequest(x.cred, ds[i], recordType)).err
    ensures var p := PassSpec(x, n, recordType, ipAddr, ds, |ds|);
            var q := PassSpec(x, n, recordType, ipAddr, ds, i);
            p.aborted &&
            p.requests == q.requests + [ListRequest(x.cred, ds[i], recordType)] &&
            p.writes[..i] == q.writes &&
            forall j :: i <= j < |ds| ==> p.writes[j] == Untouched
  {
    PassStopsAt(x, n, recordType, ipAddr, ds, i);
    AbortIsFinal(x, n, recordType, ipAddr, ds, i + 1, |ds|);
    var p := PassSpec(x, n, recordType, ipAddr, ds, |ds|);
    var r := PassSpec(x, n, recordType, ipAddr, ds, i + 1);
    assert p.writes[..i] == r.writes[..i];
  }

  /** The failed list query is the one step that stops the pass. */
  lemma PassStopsAt(x: Env, n: nat, recordType: string, ipAddr: string, ds: seq<Domain>, i: nat)
    requires i < |ds|
    requires !PassSpec(x, n, recordType, ipAddr, ds, i).aborted
    requires var q := PassSpec(x, n, recordType, ipAddr, ds, i);
             x.answer(n + |q.requests|, ListRequest(x.cred, ds[i], recordType)).err
    ensures var q := PassSpec(x, n, recordType, ipAddr, ds, i);
            var r := PassSpec(x, n, recordType, ipAddr, ds, i + 1);
            r.aborted && r.requests == q.requests + [ListRequest(x.cred, ds[i], recordType)] &&
            r.writes[..i] == q.writes && r.writes[i] == Untouched
  {
    var q := PassSpec(x, n, recordType, ipAddr, ds, i);
    var r := PassSpec(x, n, recordType, ipAddr, ds, i + 1);
    assert r.writes == q.writes + [Untouched];
  }

  /** The provider already holds the address: the list answer succeeds with
      records that all carry it. */
  ghost predicate Converged(reply: Reply, ipAddr: string)
  {
    !reply.err && |reply.records| > 0 &&
    forall k :: 0 <= k < |reply.records| ==> reply.records[k].value == ipAddr
  }

  /** Idempotence: against a provider that already holds the address for
      every domain, a pass issues only the list queries, one per domain in
      order, and writes no status. */
  lemma {:induction false} ConvergedPassOnlyLists(x: Env, n: nat, recordType: string, ipAddr: string,
                                                  ds: seq<Domain>, m: nat)
    requires m <= |ds|
    requires forall c: nat, j :: 0 <= j < |ds| ==> Converged(x.answer(c, ListRequest(x.cred, ds[j], recordType)), ipAddr)
    ensures var p := PassSpec(x, n, recordType, ipAddr, ds, m);
            !p.aborted &&
            p.requests == seq(m, j requires 0 <= j < m => ListRequest(x.cred, ds[j], recordType)) &&
            forall j :: 0 <= j < m ==> p.writes[j] == Untouched
    decreases m
  {
    if m > 0 {
      ConvergedPassOnlyLists(x, n, recordType, ipAddr, ds, m - 1);
      var prev := PassSpec(x, n, recordType, ipAddr, ds, m - 1);
      var lr := ListRequest(x.cred, ds[m - 1], recordType);
      var reply := x.answer(n + |prev.requests|, lr);
      assert Converged(reply, ipAddr);
      ModifyAllMatchIsNoop(x, n + |prev.requests| + 1, ds[m - 1], recordType, ipAddr, reply.records);
    }
  }
}
