/** What is sent to an upstream target, and what it answers to one attempt. */
module Wire {
  datatype Headers = Headers(accept: string, contentType: string)

  datatype Ask = Ask(org: string, body: string, headers: Headers)

  datatype Reply = NetError | Answer(status: nat, payload: string)

  /** status/100 == 2 in the source. */
  predicate Is2xx(status: nat): (b: bool)
    ensures b <==> 200 <= status <= 299
  {
    status / 100 == 2
  }

  /** The answers the retry loop stops at. */
  predicate Below500(r: Reply) { r.Answer? && r.status < 500 }
}
