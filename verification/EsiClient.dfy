/** The bounded retry under every page request, and how a page request ends. */
module EsiClient {
  import opened MarketOrders

  /** One attempt: success, an HTTP error status, or a failure that is not a status at all. */
  datatype Response = Success(entries: seq<Order>, totalPages: int) | Status(code: int) | Broken

  predicate Retryable(r: Response) {
    r.Status? && r.code in {420, 429, 500, 502, 503, 504}
  }

  /** The attempt a request stops at: the first that need not be retried, or the last allowed. */
  predicate StopsAt(responses: int -> Response, maxAttempts: int, n: int) {
    && 1 <= n
    && (forall i :: 1 <= i < n ==> Retryable(responses(i)) && i < maxAttempts)
    && (Retryable(responses(n)) ==> maxAttempts <= n)
  }

  method GetWithRetry(responses: int -> Response, maxAttempts: int) returns (response: Response, attempts: nat)
    ensures StopsAt(responses, maxAttempts, attempts) && response == responses(attempts)
    ensures attempts <= if 1 <= maxAttempts then maxAttempts else 1
    ensures forall i :: 1 <= i < attempts ==>
              responses(i).Status? && responses(i).code in {420, 429, 500, 502, 503, 504}
    ensures response.Status? && response.code in {420, 429, 500, 502, 503, 504} ==> maxAttempts <= attempts
  {
    attempts := 0;
    while true
      invariant forall i :: 1 <= i <= attempts ==> Retryable(responses(i)) && i < maxAttempts
      invariant 0 < attempts ==> attempts < maxAttempts
      decreases maxAttempts - attempts
    {
      attempts := attempts + 1;
      response := responses(attempts);
      if !Retryable(response) || attempts >= maxAttempts {
        return;
      }
    }
  }

  /** The stopping attempt is unique, so the contract of GetWithRetry pins its result. */
  lemma StopsOnce(responses: int -> Response, maxAttempts: int, m: int, n: int)
    requires StopsAt(responses, maxAttempts, m) && StopsAt(responses, maxAttempts, n)
    ensures m == n
  {
  }

  /** A 404 means a region without a market; every other error is raised. */
  function PageEnd(r: Response): PageResponse {
    match r
    case Success(entries, totalPages) => PageOk(entries, totalPages)
    case Status(code) => if code == 404 then NotFound else Failed
    case Broken => Failed
  }

  /** A success is its entries and page count, a status 404 a region without a market, anything else an exception. */
  predicate EndsAs(r: Response, page: PageResponse) {
    && (r.Success? ==> page.PageOk? && page.entries == r.entries && page.totalPages == r.totalPages)
    && (page.NotFound? <==> r.Status? && r.code == 404)
    && (page.Failed? <==> r.Broken? || (r.Status? && r.code != 404))
  }

  method GetMarketOrdersPage(responses: int -> Response, maxAttempts: int) returns (page: PageResponse)
    ensures exists n :: StopsAt(responses, maxAttempts, n) && page == PageEnd(responses(n))
    ensures exists n :: StopsAt(responses, maxAttempts, n) && EndsAs(responses(n), page)
  {
    var response, attempts := GetWithRetry(responses, maxAttempts);
    page := PageEnd(response);
  }
}
