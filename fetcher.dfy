/**
 * Fetching pages over HTTP with exponential back-off. The server's answers are
 * given as an oracle indexed by attempt (and by URL position for a batch).
 */
module Fetcher {
  import opened Wrappers
  import opened Retry

  const PageRetries := 3
  const BackoffUnit := 1000
  const UnexpectedError := "Unexpected error in fetchPage"

  /** The answer to one GET: the body, or the failure's message. */
  datatype FetchAttempt = Received(body: string) | Refused(message: string)

  /** Whether attempt `a` of a fetch succeeds, given the server's answers. */
  function Answered(respond: nat -> FetchAttempt): (ok: nat -> bool)
    ensures forall a: nat :: ok(a) <==> respond(a).Received?
  {
    (a: nat) => respond(a).Received?
  }

  /** The message a fetch rejects with once every attempt has failed. */
  function FailureMessage(url: string, message: string): string
  {
    "Failed to fetch " + url + ": " + message
  }

  /**
   * How `fetchPage` settles: the body of the first successful attempt; the last
   * attempt's failure once all have failed; and, when `retries <= 0`, the
   * "unexpected error" after the loop.
   */
  function FetchOutcome(url: string, retries: int, respond: nat -> FetchAttempt): (r: Result<string, string>)
    ensures retries <= 0 ==> r == Err(UnexpectedError)
    ensures r.Ok? <==> exists a :: 1 <= a <= retries && respond(a).Received?
    ensures r.Ok? ==> exists a :: 1 <= a <= retries && respond(a) == Received(r.value) &&
                                  forall b :: 1 <= b < a ==> respond(b).Refused?
    ensures r.Err? && retries > 0 ==> r.error == FailureMessage(url, respond(retries).message)
  {
    if retries <= 0 then Err(UnexpectedError)
    else
      match FirstSuccess(Answered(respond), retries)
      case Some(a) => Ok(respond(a).body)
      case None => Err(FailureMessage(url, respond(retries).message))
  }

  /**
   * `fetchPage`: requests `url` until an attempt succeeds, waiting `2^attempt * 1000` ms
   * after each failed attempt but the last.
   */
  method FetchPage(url: string, retries: int, respond: nat -> FetchAttempt)
    returns (r: Result<string, string>, requests: nat, delays: seq<nat>)
    ensures r == FetchOutcome(url, retries, respond)
    ensures requests == AttemptsMade(Answered(respond), retries)
    ensures |delays| == Waits(Answered(respond), retries)
    ensures forall k :: 0 <= k < |delays| ==> delays[k] == Pow2(k + 1) * BackoffUnit
  {
    ghost var ok := Answered(respond);
    requests, delays := 0, [];
    var attempt := 1;
    while attempt <= retries
      invariant 1 <= attempt <= (if retries >= 1 then retries else 1)
      invariant forall a :: 1 <= a < attempt ==> !respond(a).Received?
      invariant requests == attempt - 1
      invariant |delays| == attempt - 1 && forall k :: 0 <= k < |delays| ==> delays[k] == Pow2(k + 1) * BackoffUnit
    {
      requests := requests + 1;
      var response := respond(attempt);
      if response.Received? {
        assert ok(attempt);
        assert FirstSuccess(ok, retries) == Some(attempt);
        return Ok(response.body), requests, delays;
      }
      if attempt == retries {
        assert forall a :: 1 <= a <= retries ==> !ok(a);
        assert FirstSuccess(ok, retries) == None;
        return Err(FailureMessage(url, response.message)), requests, delays;
      }
      delays := delays + [Pow2(attempt) * BackoffUnit];
      attempt := attempt + 1;
    }
    r := Err(UnexpectedError);
  }

  /**
   * `fetchPages`: every URL is fetched with 3 attempts (`respond(i)` answers the
   * requests for urls[i]); the result holds one body per URL, in URL order, or
   * the failure of a URL whose fetch failed.
   */
  method FetchPages(urls: seq<string>, respond: nat -> nat -> FetchAttempt)
    returns (r: Result<seq<string>, string>)
    ensures r.Ok? <==> forall i :: 0 <= i < |urls| ==> FetchOutcome(urls[i], PageRetries, respond(i)).Ok?
    ensures r.Ok? ==> |r.value| == |urls| &&
                      forall i :: 0 <= i < |urls| ==> FetchOutcome(urls[i], PageRetries, respond(i)) == Ok(r.value[i])
    ensures r.Err? ==> exists i :: 0 <= i < |urls| && FetchOutcome(urls[i], PageRetries, respond(i)) == Err(r.error) &&
                                   forall j :: 0 <= j < i ==> FetchOutcome(urls[j], PageRetries, respond(j)).Ok?
  {
    var bodies: seq<string> := [];
    for i := 0 to |urls|
      invariant |bodies| == i
      invariant forall j :: 0 <= j < i ==> FetchOutcome(urls[j], PageRetries, respond(j)) == Ok(bodies[j])
    {
      var page, _, _ := FetchPage(urls[i], PageRetries, respond(i));
      if page.Err? {
        return Err(page.error);
      }
      bodies := bodies + [page.value];
    }
    r := Ok(bodies);
  }
}
