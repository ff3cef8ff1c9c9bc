/** The client side of the retry tests: call /failService, and on each HTTP
    error ask the retry predicate `count <= limit`, where count is the
    1-based number of failures seen so far, whether to call again. The tests
    use limit = MAX_FAILS. */
module Retry {
  import opened Decimal
  import opened Server

  /** What the subscriber finally observes: one value, or one error. */
  datatype Outcome = Delivered(message: string) | Errored(response: Response)

  /** Outcome, number of requests made, and the server counter afterwards. */
  datatype RetryRun = RetryRun(outcome: Outcome, attempts: nat, nbOfFails: int)

  /** The retry predicate of the tests; the error itself is not inspected. */
  predicate ShouldRetry(count: nat, limit: nat) {
    count <= limit
  }

  /** The client counts a response as a value only when its code is 2xx;
      any other code reaches the retry predicate as an HTTP error. */
  predicate IsSuccessful(response: Response) {
    200 <= response.status.Code() < 300
  }

  /** Issues one more request after `failures` failed (and retried) ones. */
  function RetryFrom(nbOfFails: int, limit: nat, failures: nat): (r: RetryRun)
    requires InRange(nbOfFails) && failures <= limit
    ensures failures < r.attempts <= limit + 1
    ensures InRange(r.nbOfFails)
    ensures r.outcome.Delivered? ==> r.outcome.message == "OK" && r.nbOfFails == MAX_FAILS
    ensures r.outcome.Errored? ==> r.attempts == limit + 1 && r.outcome.response.status == BAD_REQUEST
    decreases nbOfFails
  {
    var reply := FailStep(nbOfFails);
    if IsSuccessful(reply.response) then
      RetryRun(Delivered(reply.response.body.message), failures + 1, reply.nbOfFails)
    else if ShouldRetry(failures + 1, limit) then
      RetryFrom(reply.nbOfFails, limit, failures + 1)
    else
      RetryRun(Errored(reply.response), failures + 1, reply.nbOfFails)
  }

  /** Closed form of a retried call: it succeeds exactly when the remaining
      failures of the server's round fit within the retry budget, after one
      request per remaining failure plus one; otherwise it gives up on the
      request that exceeds the budget and reports that request's error. */
  lemma {:induction false} RetryOutcome(nbOfFails: int, limit: nat, failures: nat)
    requires InRange(nbOfFails) && failures <= limit
    ensures RetryFrom(nbOfFails, limit, failures) ==
      if failures + nbOfFails <= limit then
        RetryRun(Delivered("OK"), failures + nbOfFails + 1, MAX_FAILS)
      else
        var remaining := nbOfFails - (limit + 1 - failures);
        RetryRun(Errored(FailureResponse(MAX_FAILS - remaining)), limit + 1, remaining)
    decreases nbOfFails
  {
    if nbOfFails > 0 && failures + 1 <= limit {
      RetryOutcome(nbOfFails - 1, limit, failures + 1);
    }
  }

  /** What retryOnHttpError asserts: from a fresh server, retrying while
      count <= MAX_FAILS delivers "OK" and no error, after MAX_FAILS + 1
      requests, and leaves the server in its initial state. */
  lemma RetryFromInitialState()
    ensures RetryFrom(MAX_FAILS, MAX_FAILS, 0) == RetryRun(Delivered("OK"), MAX_FAILS + 1, MAX_FAILS)
  {
    RetryOutcome(MAX_FAILS, MAX_FAILS, 0);
  }

  /** With a smaller budget the retries are exhausted: from a fresh server,
      exactly limit + 1 requests are made and the error of the last one,
      "fail <limit + 1>", is reported. */
  lemma RetryGivesUpBeyondLimit(limit: nat)
    requires limit < MAX_FAILS
    ensures RetryFrom(MAX_FAILS, limit, 0) ==
      RetryRun(Errored(FailureResponse(limit + 1)), limit + 1, MAX_FAILS - (limit + 1))
  {
    RetryOutcome(MAX_FAILS, limit, 0);
  }

  /** Sequential driver over a live server object. */
  method RetryFailService(server: ServerApplication, limit: nat) returns (outcome: Outcome, attempts: nat)
    requires server.Valid()
    modifies server
    ensures server.Valid()
    ensures RetryRun(outcome, attempts, server.nbOfFails) == RetryFrom(old(server.nbOfFails), limit, 0)
  {
    ghost var start := server.nbOfFails;
    attempts := 0;
    while true
      invariant server.Valid() && attempts <= limit
      invariant RetryFrom(server.nbOfFails, limit, attempts) == RetryFrom(start, limit, 0)
      decreases server.nbOfFails
    {
      var response := server.Fail();
      attempts := attempts + 1;
      if IsSuccessful(response) {
        return Delivered(response.body.message), attempts;
      }
      if !ShouldRetry(attempts, limit) {
        return Errored(response), attempts;
      }
    }
  }

  /** retryOnHttpError end to end: a fresh server, retried while
      count <= MAX_FAILS, yields the value "OK" and no error on the
      (MAX_FAILS + 1)-th request. */
  method RetryOnHttpError() returns (outcome: Outcome, attempts: nat)
    ensures outcome == Delivered("OK") && attempts == MAX_FAILS + 1
  {
    var server := new ServerApplication();
    outcome, attempts := RetryFailService(server, MAX_FAILS);
    RetryFromInitialState();
  }
}
