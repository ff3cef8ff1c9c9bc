/** The demo backend: a fast /ping, a slow /longService and the flaky
    /failService, whose counter nbOfFails makes it fail MAX_FAILS times with
    growing latency and then succeed once, over and over. Sleeping is not
    performed; each response carries how long the handler sleeps before
    answering. */
module Server {
  import opened Decimal

  const MAX_TIME: int := 30   // seconds
  const MAX_FAILS: int := 3

  /** Number of calls after which /failService is back where it started. */
  const Period: int := MAX_FAILS + 1

  datatype HttpStatus = OK | BAD_REQUEST {
    /** The numeric HTTP status code. */
    function Code(): (c: int)
      ensures this == OK ==> c == 200
      ensures this == BAD_REQUEST ==> 400 <= c < 500
    {
      match this
      case OK => 200
      case BAD_REQUEST => 400
    }
  }

  datatype MessageData = MessageData(message: string)

  /** A response entity, and the time the handler slept before returning it. */
  datatype Response = Response(status: HttpStatus, body: MessageData, delayMillis: nat)

  /** The answer of a failing /failService call that waited w seconds. */
  function FailureResponse(w: nat): Response {
    Response(BAD_REQUEST, MessageData("fail " + DecimalString(w)), w * 1000)
  }

  function SuccessResponse(): Response {
    Response(OK, MessageData("OK"), 0)
  }

  /** Reads the wait back out of a failure message. */
  function ParseFailMessage(m: string): (w: Option<nat>)
    ensures w.Some? ==> |m| > 5 && m[..5] == "fail "
  {
    if |m| > 5 && m[..5] == "fail " then ParseDecimal(m[5..]) else None
  }

  /** The body of a failing call tells the client exactly how long it waited,
      and can never be taken for the success body. */
  lemma FailMessageCarriesWait(w: nat)
    ensures ParseFailMessage(FailureResponse(w).body.message) == Some(w)
    ensures FailureResponse(w).body != SuccessResponse().body
  {
    var m := FailureResponse(w).body.message;
    assert m[..5] == "fail " && m[5..] == DecimalString(w);
    ParseDecimalString(w);
  }

  predicate InRange(nbOfFails: int) {
    0 <= nbOfFails <= MAX_FAILS
  }

  /** Counter after a /failService call, and the response of that call. */
  datatype Reply = Reply(nbOfFails: int, response: Response)

  /** One /failService call as a transition of the counter. A positive
      counter means the call is the (MAX_FAILS - nbOfFails + 1)-th failure of
      the current round; any other value resets the round and succeeds. */
  function FailStep(nbOfFails: int): (r: Reply)
    requires nbOfFails <= MAX_FAILS
    ensures InRange(r.nbOfFails)
    ensures r.response.status == BAD_REQUEST <==> nbOfFails > 0
    ensures nbOfFails > 0 ==>
      var w := MAX_FAILS - nbOfFails + 1;
      1 <= w <= MAX_FAILS && r.nbOfFails == nbOfFails - 1 &&
      r.response == FailureResponse(w) && r.response.delayMillis == 1000 * w
    ensures nbOfFails <= 0 ==> r.nbOfFails == MAX_FAILS && r.response == SuccessResponse()
  {
    if nbOfFails > 0 then
      var remaining := nbOfFails - 1;
      var w := MAX_FAILS - remaining;
      Reply(remaining, FailureResponse(w))
    else
      Reply(MAX_FAILS, SuccessResponse())
  }

  class ServerApplication {
    var nbOfFails: int

    ghost predicate Valid()
      reads this
    {
      InRange(nbOfFails)
    }

    constructor ()
      ensures Valid() && nbOfFails == MAX_FAILS
    {
      nbOfFails := MAX_FAILS;
    }

    /** GET /ping. No reads clause: it cannot depend on, nor change, nbOfFails. */
    function Ping(): (r: Response)
      ensures r.status == OK && r.body.message == "pong" && r.delayMillis == 0
    {
      Response(OK, MessageData("pong"), 0)
    }

    /** GET /longService: succeeds after sleeping MAX_TIME seconds. */
    function LongService(): (r: Response)
      ensures r.status == OK && r.body.message == "OK"
      ensures r.delayMillis == 30000
    {
      Response(OK, MessageData("OK"), MAX_TIME * 1000)
    }

    /** GET /failService. */
    method Fail() returns (r: Response)
      requires nbOfFails <= MAX_FAILS
      modifies this
      ensures Valid()
      ensures Reply(nbOfFails, r) == FailStep(old(nbOfFails))
      ensures old(nbOfFails) > 0 ==>
        nbOfFails == old(nbOfFails) - 1 && r.status == BAD_REQUEST &&
        r == FailureResponse(MAX_FAILS - nbOfFails)
      ensures old(nbOfFails) <= 0 ==> nbOfFails == MAX_FAILS && r == SuccessResponse()
    {
      if nbOfFails > 0 {
        nbOfFails := nbOfFails - 1;
        var w := MAX_FAILS - nbOfFails;
        r := FailureResponse(w);
      } else {
        nbOfFails := MAX_FAILS;
        r := SuccessResponse();
      }
    }
  }

  /** Final counter and the responses of a run of consecutive calls. */
  datatype Run = Run(nbOfFails: int, responses: seq<Response>)

  /** k consecutive /failService calls starting from counter nbOfFails. */
  function Serve(nbOfFails: int, k: nat): (r: Run)
    requires InRange(nbOfFails)
    ensures InRange(r.nbOfFails)
    ensures |r.responses| == k
    decreases k
  {
    if k == 0 then Run(nbOfFails, [])
    else
      var first := FailStep(nbOfFails);
      var rest := Serve(first.nbOfFails, k - 1);
      Run(rest.nbOfFails, [first.response] + rest.responses)
  }

  /** Reference schedule of one round: positions 0 .. MAX_FAILS - 1 fail with
      waits 1 .. MAX_FAILS seconds, position MAX_FAILS succeeds. */
  function Scheduled(pos: nat): Response
    requires pos < Period
  {
    if pos < MAX_FAILS then FailureResponse(pos + 1) else SuccessResponse()
  }

  /** Position in the round of the next call when the counter is nbOfFails. */
  function RoundPosition(nbOfFails: int): nat
    requires InRange(nbOfFails)
  {
    MAX_FAILS - nbOfFails
  }

  /** Every run of calls follows the reference schedule, cyclically. */
  lemma {:induction false} ServeFollowsSchedule(nbOfFails: int, k: nat)
    requires InRange(nbOfFails)
    ensures Serve(nbOfFails, k).nbOfFails == MAX_FAILS - (RoundPosition(nbOfFails) + k) % Period
    ensures forall i :: 0 <= i < k ==>
      Serve(nbOfFails, k).responses[i] == Scheduled((RoundPosition(nbOfFails) + i) % Period)
    decreases k
  {
    if k > 0 {
      var first := FailStep(nbOfFails);
      ServeFollowsSchedule(first.nbOfFails, k - 1);
      var run := Serve(nbOfFails, k);
      var rest := Serve(first.nbOfFails, k - 1);
      assert run.responses == [first.response] + rest.responses;
      assert (RoundPosition(first.nbOfFails) + (k - 1)) % Period == (RoundPosition(nbOfFails) + k) % Period;
      forall i | 0 <= i < k
        ensures run.responses[i] == Scheduled((RoundPosition(nbOfFails) + i) % Period)
      {
        if i > 0 {
          assert run.responses[i] == rest.responses[i - 1];
          assert (RoundPosition(first.nbOfFails) + (i - 1)) % Period == (RoundPosition(nbOfFails) + i) % Period;
        }
      }
    }
  }

  /** From a fresh server: MAX_FAILS failures with waits 1, 2, ..., MAX_FAILS
      seconds in that order, then one success, and the counter is back to its
      initial value. */
  lemma FirstRound()
    ensures Serve(MAX_FAILS, Period).nbOfFails == MAX_FAILS
    ensures forall i :: 0 <= i < MAX_FAILS ==>
      Serve(MAX_FAILS, Period).responses[i] == FailureResponse(i + 1)
    ensures Serve(MAX_FAILS, Period).responses[MAX_FAILS] == SuccessResponse()
    ensures forall i, j :: 0 <= i < j < MAX_FAILS ==>
      Serve(MAX_FAILS, Period).responses[i].delayMillis < Serve(MAX_FAILS, Period).responses[j].delayMillis
  {
    ServeFollowsSchedule(MAX_FAILS, Period);
  }

  /** /failService is periodic with period MAX_FAILS + 1 from any valid
      counter: a round of calls restores the counter, and each response
      repeats the one a round earlier. */
  lemma ServeIsPeriodic(nbOfFails: int, k: nat)
    requires InRange(nbOfFails)
    ensures Serve(nbOfFails, Period).nbOfFails == nbOfFails
    ensures forall i :: Period <= i < k ==>
      Serve(nbOfFails, k).responses[i] == Serve(nbOfFails, k).responses[i - Period]
  {
    ServeFollowsSchedule(nbOfFails, Period);
    ServeFollowsSchedule(nbOfFails, k);
    var p := RoundPosition(nbOfFails);
    var run := Serve(nbOfFails, k);
    forall i | Period <= i < k
      ensures run.responses[i] == run.responses[i - Period]
    {
      assert (p + i) % Period == (p + (i - Period)) % Period;
    }
  }

  /** Total time the handler sleeps over a run of responses. */
  function TotalDelay(rs: seq<Response>): nat {
    if rs == [] then 0 else rs[0].delayMillis + TotalDelay(rs[1..])
  }

  /** A first round from a fresh server takes 1 + 2 + 3 seconds of waiting. */
  lemma FirstRoundDelay()
    ensures TotalDelay(Serve(MAX_FAILS, Period).responses) == 6000
  {
    FirstRound();
    var rs := Serve(MAX_FAILS, Period).responses;
    assert rs[0].delayMillis == 1000 && rs[1].delayMillis == 2000;
    assert rs[2].delayMillis == 3000 && rs[3].delayMillis == 0;
    assert TotalDelay(rs[3..]) == 0 by { assert rs[3..][1..] == []; }
    assert TotalDelay(rs[2..]) == 3000 by { assert rs[2..][1..] == rs[3..]; }
    assert TotalDelay(rs[1..]) == 5000 by { assert rs[1..][1..] == rs[2..]; }
  }
}
