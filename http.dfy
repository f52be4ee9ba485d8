/** The network as the scripts see it: a fetch either throws or yields a
    response. Fetching is an oracle, a function from URL to outcome, so that
    every script that fetches becomes a deterministic function of it. */
module Http {

  /** What a script reads from a fetched response. */
  datatype Response = Response(
    text: string,          // the body
    contentType: string,   // `headers.get("content-type") || ""`
    finalUrl: string,      // `resp.url`, after redirects
    status: nat,
    redirected: bool)
  {
    /** `resp.ok`: a status in the range 200 to 299. */
    predicate Ok() {
      200 <= status <= 299
    }
  }

  datatype FetchOutcome =
    | Fetched(response: Response)
    | Thrown(message: string)    // `String(e?.message || e)` of the error thrown

  type Fetcher = string -> FetchOutcome
}
