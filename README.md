# rx-web-playground: the flaky demo backend and the retry it is tested with

The repository is a playground for RxJava timeouts and retries against a small
Spring Boot server. The part with sequential logic of its own is the server's
`/failService` endpoint. A counter `nbOfFails` starts at `MAX_FAILS` = 3. While
the counter is positive, each call decrements it. It then sleeps
`w = MAX_FAILS - nbOfFails` seconds and answers `400 BAD_REQUEST` with the body
`"fail w"`. When the counter is 0, the call resets it to `MAX_FAILS` and
answers `200 OK` with `"OK"`. So the endpoint fails three times, with waits of
1, 2 and 3 seconds, then succeeds once, and repeats with period 4. Beside it
are `/ping` (an immediate `"pong"`) and `/longService` (`"OK"` after
`MAX_TIME * 1000` = 30000 ms).

The model has three modules:

- `Decimal` (decimal.dfy) renders a non-negative number as decimal text, as
  the Kotlin template `"fail $w"` does for a `Long`. It also has a parser
  that reads the text back, which is used to prove the round trip.
- `Server` (server.dfy) has the class `ServerApplication` with the mutable
  field `nbOfFails` and the method `Fail`. It also has `FailStep`, the pure
  transition that specifies `Fail`, and `Serve`, a run of k consecutive
  calls. The lemmas about `Serve` prove the cyclic schedule, the period and
  the first round seen from a fresh server.
- `Retry` (retry.dfy) is the client side of `RetryTests`. The retry
  predicate `count <= limit` is applied over repeated calls, where `count` is
  the 1-based number of failures seen so far. The tests use
  `limit = MAX_FAILS`. `RetryFrom` is the pure specification.
  `RetryFailService` is a loop over a live server object that is proved
  against it. `RetryOnHttpError` replays the test from a fresh server.

Sleeping is not performed. Each `Response` carries `delayMillis`, the time the
handler sleeps before it answers.

## Model

| member | source | states |
|---|---|---|
| `Server.ServerApplication.constructor` | src/main/kotlin/fr/ekito/rxtest/server/ServerApplication.kt:28 | a new server starts with `nbOfFails == MAX_FAILS` and satisfies its invariant `0 <= nbOfFails <= MAX_FAILS` |
| `Server.ServerApplication.Fail` | src/main/kotlin/fr/ekito/rxtest/server/ServerApplication.kt:30-43 | the invariant `0 <= nbOfFails <= MAX_FAILS` holds after every call. A call with a positive counter decrements it by exactly one and returns `BAD_REQUEST` with `"fail w"` after `w*1000` ms, where `w = MAX_FAILS - nbOfFails` after the decrement. A call with counter 0 resets it to `MAX_FAILS` and returns `OK`/`"OK"` with no wait. The call agrees with `FailStep` |
| `Server.FailStep` | src/main/kotlin/fr/ekito/rxtest/server/ServerApplication.kt:31-43 | the counter after the call is always in `0..MAX_FAILS`. The call fails exactly when the counter was positive. A failing call is the `(MAX_FAILS - nbOfFails + 1)`-th failure of its round. Its wait lies in `1..MAX_FAILS` seconds, and its body text and its sleep use that same wait. A non-positive counter resets to `MAX_FAILS` and answers `"OK"` |
| `Server.ServerApplication.Ping` | src/main/kotlin/fr/ekito/rxtest/server/ServerApplication.kt:17-18 | always `OK` with `"pong"` and no delay. It has no reads clause, so it cannot depend on `nbOfFails` or change it |
| `Server.ServerApplication.LongService` | src/main/kotlin/fr/ekito/rxtest/server/ServerApplication.kt:20-26 | always `OK` with `"OK"` after 30000 ms (`MAX_TIME` = 30 s). It has no reads clause, so it cannot depend on `nbOfFails` or change it |
| `Server.HttpStatus.Code` | src/main/kotlin/fr/ekito/rxtest/server/ServerApplication.kt:37-41 | `OK` is code 200 and `BAD_REQUEST` is a 4xx client error. The retry client uses the code to tell a value (2xx) from an HTTP error |
| `Decimal.DecimalString` | src/main/kotlin/fr/ekito/rxtest/server/ServerApplication.kt:37 | the text of `$w` is a non-empty string of decimal digits with no leading zero (it starts with `'0'` only for 0). It is one digit exactly for values below 10 |
| `Decimal.ParseDecimal` | src/main/kotlin/fr/ekito/rxtest/server/ServerApplication.kt:37 | inverse of the rendering of `$w`, used to state its round trip; it accepts exactly the non-empty strings of digits |
| `Decimal.ParseDecimalString` | src/main/kotlin/fr/ekito/rxtest/server/ServerApplication.kt:37 | round trip: the decimal text of `n` reads back as `n` |
| `Decimal.DecimalStringInjective` | src/main/kotlin/fr/ekito/rxtest/server/ServerApplication.kt:37 | different waits give different texts |
| `Server.ParseFailMessage` | src/main/kotlin/fr/ekito/rxtest/server/ServerApplication.kt:37 | inverse of the `"fail $w"` rendering, used to state that the body carries the wait; only a message that starts with `"fail "` yields a wait |
| `Server.FailMessageCarriesWait` | src/main/kotlin/fr/ekito/rxtest/server/ServerApplication.kt:34-41 | the body `"fail w"` of a failing call gives back exactly `w`. No failure body equals the success body `"OK"` |
| `Server.Serve` | src/main/kotlin/fr/ekito/rxtest/server/ServerApplication.kt:28-43 | over any number of consecutive calls from a valid counter, the counter stays in `0..MAX_FAILS`, and there is one response per call |
| `Server.ServeFollowsSchedule` | src/main/kotlin/fr/ekito/rxtest/server/ServerApplication.kt:28-43 | every run of calls follows an independent reference schedule. The i-th response is the one at position `(MAX_FAILS - nbOfFails + i) mod (MAX_FAILS+1)` of the round, in which positions `0..MAX_FAILS-1` fail with waits 1..MAX_FAILS and the last position succeeds. The final counter is given by the same position |
| `Server.FirstRound` | src/main/kotlin/fr/ekito/rxtest/server/ServerApplication.kt:28-42 | from a fresh server, calls `1..MAX_FAILS` fail with waits `1, 2, ..., MAX_FAILS`, strictly increasing. Call `MAX_FAILS+1` succeeds with `"OK"`, and the counter is back to its initial value |
| `Server.ServeIsPeriodic` | src/main/kotlin/fr/ekito/rxtest/server/ServerApplication.kt:28-43 | from any valid counter, `MAX_FAILS+1` calls restore the counter, and every response equals the one `MAX_FAILS+1` calls earlier |
| `Server.FirstRoundDelay` | src/test/kotlin/fr/ekito/rxtest/server/RetryTests.kt:62-75 | the first round from a fresh server sleeps 1 + 2 + 3 s = 6000 ms in total |
| `Retry.RetryFrom` | src/test/kotlin/fr/ekito/rxtest/server/RetryTests.kt:46-50 | a retried call makes between 1 and `limit+1` requests. A delivered value is always `"OK"` and leaves the server reset. An error is reported only after `limit+1` requests, and it is a `BAD_REQUEST` |
| `Retry.RetryOutcome` | src/test/kotlin/fr/ekito/rxtest/server/RetryTests.kt:47-50 | closed form for every counter and budget. The call succeeds exactly when the remaining failures of the round fit in the budget (`failures + nbOfFails <= limit`), after `nbOfFails + 1` more requests. Otherwise it gives up after request `limit+1` and reports that request's `"fail w"` |
| `Retry.RetryFromInitialState` | src/test/kotlin/fr/ekito/rxtest/server/RetryTests.kt:78-83 | from a fresh server, retrying while `count <= MAX_FAILS` ends in the single value `"OK"`, with no error, after exactly `MAX_FAILS+1` requests. The server is left in its initial state |
| `Retry.RetryGivesUpBeyondLimit` | src/test/kotlin/fr/ekito/rxtest/server/RetryTests.kt:47-50 | with a budget below `MAX_FAILS`, exactly `limit+1` requests are made from a fresh server, and the error of the last one (`"fail <limit+1>"`) is reported |
| `Retry.RetryFailService` | src/test/kotlin/fr/ekito/rxtest/server/RetryTests.kt:46-53 | the loop over a live `ServerApplication` gives the outcome, the request count and the new server counter that `RetryFrom` specifies, and it keeps the server's invariant |
| `Retry.RetryOnHttpError` | src/test/kotlin/fr/ekito/rxtest/server/RetryTests.kt:41-84 | end to end on a new server object, the subscriber receives `"OK"` on request `MAX_FAILS+1` |

## Left out

- `Thread.sleep` is not performed. The sleep is returned as `delayMillis` in the response.
- Logging, the Spring annotations and routing, and `main` are left out.
- `MessageData` is modelled as a record with one `message` field. Its Kotlin declaration is not part of this model.
- `Server.FailStep`: the model does not cover a counter above `MAX_FAILS`. Such a counter can only arise if other code assigns the field; no code in the repository does. In Kotlin, `nbOfFails` is a public `var`, and in Dafny the field can be assigned from other modules too.
- With a counter of `MAX_FAILS + 1`, the Kotlin call decrements it to `MAX_FAILS`, sleeps 0 s and answers 400 `"fail 0"`. This call is not modelled.
- With a counter of `MAX_FAILS + 2` or more, the Kotlin call first decrements the counter, so the decrement stays. It then passes the `Long` product `w * 1000` to `Thread.sleep`. Usually the product is negative, the call throws, and Spring answers with its own 500 error response. For counters above about 9.2·10^15 the product can overflow and wrap to a non-negative sleep; the call then answers 400 with a negative wait in its `"fail w"` body. Neither case is modelled.
- A negative counter is modelled, and it takes the reset branch as in Kotlin.
- `Server.ServerApplication.Fail` has the same precondition as `Server.FailStep`, for the same reason.
- Concurrent calls on the singleton controller are left out. The field is not synchronised, and the model treats calls as sequential.
- The retry operator is RxJava's, and its code is not part of this model. The `Retry` module models only what the tests assert it does. The predicate gets the 1-based failure count and ignores the error.
- The test variants that retry after an Rx `timeout(1 s)` or an OkHttp read timeout are left out. They depend on races between timers, cancellation and the transport.
- `TimeoutTests.kt` is left out: cancellation races and undeliverable exceptions.
- `HttpClient.kt` is left out: OkHttp and Retrofit builder configuration.
- `SimpleTests.kt` is left out: a blocking GET on `/ping`.
- A cancellable, deadline-bounded retry executor is not modelled. The repository has no such component.
- Kotlin `Long` overflow is not modelled. Every value the endpoints compute is at most 30000.
