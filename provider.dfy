/** The DNSPod HTTP API seen from the client: every call is one form POST
    whose answer is decided by an oracle, and every call is logged. */
module Provider {
  import opened Requests

  /** An existing record as listed; its name, type and enabled flag are
      never read by the reconciliation and are not kept. */
  datatype Record = Record(id: string, value: string)

  /** A decoded answer: err stands for a transport or decoding failure,
      code and message are the provider's status, records the list payload
      (empty for write calls). */
  datatype Reply = Reply(err: bool, code: string, message: string, records: seq<Record>)

  /** The provider's behaviour: the answer to the n-th call, given its request. */
  type Oracle = (nat, Request) -> Reply

  /** Stand-in for the HTTP client: posts a request, returns the oracle's answer. */
  class Transport {
    const answer: Oracle
    var calls: nat
    ghost var log: seq<Request>

    ghost predicate Valid()
      reads this
    {
      calls == |log|
    }

    constructor (answer: Oracle)
      ensures Valid() && this.answer == answer && log == []
    {
      this.answer := answer;
      calls := 0;
      log := [];
    }

    /** Issue one request: it is appended to the log and answered by the oracle. */
    method Post(req: Request) returns (reply: Reply)
      requires Valid()
      modifies this
      ensures Valid()
      ensures log == old(log) + [req]
      ensures reply == answer(old(calls), req)
    {
      reply := answer(calls, req);
      calls := calls + 1;
      log := log + [req];
    }
  }
}
