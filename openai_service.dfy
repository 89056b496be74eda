/** The retrying chat-request dispatcher (frontend/src/services/openaiService.ts):
    the backoff rule, the transport-failure test, the per-attempt
    classification of a `fetch` outcome, and the bounded retry loop. The
    network is an oracle: `outcomes[i]` is what the i-th `fetch` yields, and
    `jitters[i]` is the jitter `Math.random()` draws in attempt i. */
module OpenAIService {
  import opened Wrappers
  import opened JsText
  import opened Errors

  const MAX_RETRIES: nat := 3
  const BASE_DELAY_MS: nat := 500
  const MAX_DELAY_MS: nat := 5000
  const JITTER_CEILING_MS: nat := 250
  const RETRYABLE_STATUS_CODES: set<int> := {408, 429, 500, 502, 503, 504}
  const CLIENT_ERROR_CODES: set<int> := {400, 401, 403, 404}
  const FAILED_TO_FETCH: string := "Failed to fetch"

  function Pow2(n: nat): (p: nat)
    ensures p >= 1
  {
    if n == 0 then 1 else 2 * Pow2(n - 1)
  }

  function Min(a: int, b: int): int {
    if a <= b then a else b
  }

  // ------------------------------------------------------------ backoff

  /** `calculateDelay(attempt, retryAfter)`. */
  function CalculateDelay(attempt: nat, retryAfter: Option<string>, jitter: nat): int
    requires jitter < JITTER_CEILING_MS
  {
    if Truthy(retryAfter) then
      match ParseInt(retryAfter.value)
      case None => BASE_DELAY_MS
      case Some(seconds) => seconds * 1000
    else
      Min(BASE_DELAY_MS * Pow2(attempt) + jitter, MAX_DELAY_MS)
  }

  /** A non-empty Retry-After decides alone: its seconds times 1000, with no
      cap, or the base delay when `parseInt` finds no number; the attempt
      and the jitter play no part. */
  lemma DelayFromHint(attempt: nat, hint: string, jitter: nat)
    requires hint != [] && jitter < JITTER_CEILING_MS
    ensures ParseInt(hint).Some? ==> CalculateDelay(attempt, Some(hint), jitter) == ParseInt(hint).value * 1000
    ensures ParseInt(hint).None? ==> CalculateDelay(attempt, Some(hint), jitter) == BASE_DELAY_MS
  {
  }

  /** Without a usable hint (none, or an empty header) the delay is at least
      the exponential term (up to the cap), never above the cap, and less
      than the exponential term plus the jitter ceiling. */
  lemma DelayBounds(attempt: nat, retryAfter: Option<string>, jitter: nat)
    requires !Truthy(retryAfter) && jitter < JITTER_CEILING_MS
    ensures var d := CalculateDelay(attempt, retryAfter, jitter);
      && Min(BASE_DELAY_MS * Pow2(attempt), MAX_DELAY_MS) <= d <= MAX_DELAY_MS
      && d < BASE_DELAY_MS * Pow2(attempt) + JITTER_CEILING_MS
  {
  }

  lemma {:induction false} Pow2Monotone(a: nat, b: nat)
    requires a <= b
    ensures Pow2(a) <= Pow2(b)
    decreases b
  {
    if a < b {
      Pow2Monotone(a, b - 1);
    }
  }

  /** Without a hint, a later attempt never waits less (for the same jitter). */
  lemma DelayMonotone(a1: nat, a2: nat, jitter: nat)
    requires a1 <= a2 && jitter < JITTER_CEILING_MS
    ensures CalculateDelay(a1, None, jitter) <= CalculateDelay(a2, None, jitter)
  {
    Pow2Monotone(a1, a2);
  }

  /** Within the attempt budget the cap never bites: attempts 0, 1 and 2 wait
      500, 1000 and 2000 ms plus their jitter. */
  lemma DelayWithinBudget(attempt: nat, jitter: nat)
    requires attempt < MAX_RETRIES && jitter < JITTER_CEILING_MS
    ensures CalculateDelay(attempt, None, jitter) == BASE_DELAY_MS * Pow2(attempt) + jitter
  {
    Pow2Monotone(attempt, 2);
  }

  /** From attempt 4 on the exponential term alone exceeds the cap. */
  lemma DelayCapped(attempt: nat, jitter: nat)
    requires attempt >= 4 && jitter < JITTER_CEILING_MS
    ensures CalculateDelay(attempt, None, jitter) == MAX_DELAY_MS
  {
    Pow2Monotone(4, attempt);
  }

  /** A Retry-After of n seconds (possibly followed by text that is not a
      digit) yields exactly n * 1000 ms, whatever the attempt and jitter. */
  lemma DelayFromSeconds(attempt: nat, n: int, rest: string, jitter: nat)
    requires rest == [] || !IsDigit(rest[0])
    requires jitter < JITTER_CEILING_MS
    ensures CalculateDelay(attempt, Some(IntToString(n) + rest), jitter) == n * 1000
  {
    ParseIntOfIntToString(n, rest);
  }

  /** An HTTP-date Retry-After (it starts with a day name) falls back to the
      base delay rather than to exponential backoff. */
  lemma DelayFromHttpDate(attempt: nat, date: string, jitter: nat)
    requires date != [] && ('A' <= date[0] <= 'Z' || 'a' <= date[0] <= 'z')
    requires jitter < JITTER_CEILING_MS
    ensures CalculateDelay(attempt, Some(date), jitter) == BASE_DELAY_MS
  {
    assert !IsWhitespace(date[0]);
    ParseIntRejectsNonNumeric(date);
  }

  // ----------------------------------------------------- classification

  /** `isNetworkError`: a `TypeError` whose message contains "Failed to fetch". */
  function IsNetworkError(e: Exception): bool {
    e.TypeError? && Includes(e.message, FAILED_TO_FETCH)
  }

  /** Only a TypeError is a network error, and exactly when 'Failed to
      fetch' occurs somewhere in its message. */
  lemma NetworkErrorIff(e: Exception)
    ensures IsNetworkError(e) <==> e.TypeError? && exists i :: OccursAt(e.message, FAILED_TO_FETCH, i)
  {
    IncludesIff(e.Message(), FAILED_TO_FETCH);
  }

  /** `error instanceof ClientError || error instanceof ServerError`. */
  predicate IsTerminal(e: Exception) {
    e.App? && (e.error.ClientError? || e.error.ServerError?)
  }

  /** A `ReadableStream` body: the text chunks `reader.read()` delivers, and
      the error it rejects with after them, if any. */
  datatype Stream = Stream(chunks: seq<string>, readError: Option<Exception>)

  /** What one `fetch` call settles to. */
  datatype FetchOutcome =
    | Response(status: int, text: string, retryAfter: Option<string>, body: Option<Stream>)
    | Rejected(error: Exception)

  /** `response.ok`. */
  predicate IsOk(status: int) {
    200 <= status <= 299
  }

  /** How one iteration of the retry loop ends. */
  datatype Step =
    | Return(body: Option<Stream>)
    | Throw(error: Exception)
    | Retry(delayMs: int)
    | Break

  /** The `catch` block for an error caught in attempt `attempt`. */
  function CatchStep(attempt: nat, e: Exception, jitter: nat): Step
    requires jitter < JITTER_CEILING_MS
  {
    if IsNetworkError(e) then Retry(CalculateDelay(attempt, None, jitter))
    else if IsTerminal(e) then Throw(e)
    else if attempt == MAX_RETRIES - 1 then Break
    else Retry(CalculateDelay(attempt, None, jitter))
  }

  /** One iteration of the loop body, `try` and `catch` together. */
  function AttemptStep(attempt: nat, o: FetchOutcome, jitter: nat): Step
    requires jitter < JITTER_CEILING_MS
  {
    match o
    case Rejected(e) => CatchStep(attempt, e, jitter)
    case Response(status, text, retryAfter, body) =>
      if IsOk(status) then Return(body)
      else if status in CLIENT_ERROR_CODES then CatchStep(attempt, App(ClientError(status, text)), jitter)
      else if status !in RETRYABLE_STATUS_CODES then CatchStep(attempt, App(ServerError(status, text)), jitter)
      else Retry(CalculateDelay(attempt, retryAfter, jitter))
  }

  /** How an attempt ends, by outcome: an ok response returns its body; a
      client status, or a status in neither set, is thrown and then rethrown
      by the `catch` (a client status as a ClientError, the rest as a
      ServerError); a retryable status, a transport failure and any other
      error wait and retry, except that an error of the last kind in the
      last attempt breaks out without waiting. */
  lemma AttemptClassification(attempt: nat, o: FetchOutcome, jitter: nat)
    requires jitter < JITTER_CEILING_MS
    ensures var step := AttemptStep(attempt, o, jitter);
      && (step.Return? <==> o.Response? && IsOk(o.status))
      && (step.Return? ==> step.body == o.body)
      && (step.Throw? <==>
            || (o.Response? && !IsOk(o.status) && o.status !in RETRYABLE_STATUS_CODES)
            || (o.Rejected? && IsTerminal(o.error)))
      && (step.Throw? && o.Response? ==>
            step.error == App(if o.status in CLIENT_ERROR_CODES then ClientError(o.status, o.text)
                              else ServerError(o.status, o.text)))
      && (step.Throw? && o.Rejected? ==> step.error == o.error)
      && (step.Break? <==>
            attempt == MAX_RETRIES - 1 && o.Rejected? && !IsNetworkError(o.error) && !IsTerminal(o.error))
      && (step.Retry? && o.Response? ==> step.delayMs == CalculateDelay(attempt, o.retryAfter, jitter))
      && (step.Retry? && o.Rejected? ==> step.delayMs == CalculateDelay(attempt, None, jitter))
  {
    if o.Response? && !IsOk(o.status) && o.status !in RETRYABLE_STATUS_CODES {
      var e := App(if o.status in CLIENT_ERROR_CODES then ClientError(o.status, o.text)
                   else ServerError(o.status, o.text));
      assert !IsNetworkError(e);
    }
  }

  // --------------------------------------------------------- retry loop

  /** What the caller observes: a resolved value (`response.body`, or `null`
      once the retries are used up) or a thrown error. */
  datatype CallResult = Returned(stream: Option<Stream>) | Raised(error: Exception)

  /** The observable side of a call: each `fetch` and each awaited `wait`. */
  datatype Event = Fetch(attempt: nat) | Wait(delayMs: int)

  datatype Run = Run(result: CallResult, trace: seq<Event>)

  /** The oracle answers every attempt, with jitter drawn from [0, 250). */
  predicate Oracle(outcomes: seq<FetchOutcome>, jitters: seq<nat>) {
    && |outcomes| >= MAX_RETRIES && |jitters| >= MAX_RETRIES
    && forall i :: 0 <= i < |jitters| ==> jitters[i] < JITTER_CEILING_MS
  }

  /** The call from attempt `attempt` on, as a recursive definition. */
  function Dispatched(outcomes: seq<FetchOutcome>, jitters: seq<nat>, attempt: nat): Run
    requires Oracle(outcomes, jitters) && attempt <= MAX_RETRIES
    decreases MAX_RETRIES - attempt
  {
    if attempt == MAX_RETRIES then Run(Returned(None), [])
    else
      match AttemptStep(attempt, outcomes[attempt], jitters[attempt])
      case Return(body) => Run(Returned(body), [Fetch(attempt)])
      case Throw(e) => Run(Raised(e), [Fetch(attempt)])
      case Break => Run(Returned(None), [Fetch(attempt)])
      case Retry(d) =>
        var rest := Dispatched(outcomes, jitters, attempt + 1);
        Run(rest.result, [Fetch(attempt), Wait(d)] + rest.trace)
  }

  function Prepend(prefix: seq<Event>, run: Run): Run {
    Run(run.result, prefix + run.trace)
  }

  function Fetches(trace: seq<Event>): nat {
    if trace == [] then 0 else (if trace[0].Fetch? then 1 else 0) + Fetches(trace[1..])
  }

  function Waits(trace: seq<Event>): nat {
    if trace == [] then 0 else (if trace[0].Wait? then 1 else 0) + Waits(trace[1..])
  }

  lemma FetchWaitPrefix(d: int, attempt: nat, rest: seq<Event>)
    ensures Fetches([Fetch(attempt), Wait(d)] + rest) == 1 + Fetches(rest)
    ensures Waits([Fetch(attempt), Wait(d)] + rest) == 1 + Waits(rest)
  {
    var t := [Fetch(attempt), Wait(d)] + rest;
    assert t[1..] == [Wait(d)] + rest;
    assert t[1..][1..] == rest;
  }

  /** `fetchChatResponse(messages)`: the `for` loop over attempts with its
      early return, throw, `continue` and `break`. */
  method FetchChatResponse(outcomes: seq<FetchOutcome>, jitters: seq<nat>)
      returns (result: CallResult, trace: seq<Event>)
    requires Oracle(outcomes, jitters)
    ensures Run(result, trace) == Dispatched(outcomes, jitters, 0)
    ensures 1 <= Fetches(trace) <= MAX_RETRIES
    ensures Waits(trace) <= Fetches(trace)
    ensures result.Raised? ==> IsTerminal(result.error)
    ensures outcomes[0].Response? && IsOk(outcomes[0].status) ==>
              result == Returned(outcomes[0].body) && trace == [Fetch(0)]
  {
    trace := [];
    for attempt := 0 to MAX_RETRIES
      invariant Dispatched(outcomes, jitters, 0) == Prepend(trace, Dispatched(outcomes, jitters, attempt))
    {
      ghost var before := trace;
      trace := trace + [Fetch(attempt)];
      var step := TryAttempt(attempt, outcomes[attempt], jitters[attempt]);
      match step {
        case Return(body) =>
          result := Returned(body);
          StopEnds(outcomes, jitters, attempt, result, before);
          FetchChatResponseFacts(outcomes, jitters);
          return;
        case Throw(error) =>
          result := Raised(error);
          StopEnds(outcomes, jitters, attempt, result, before);
          FetchChatResponseFacts(outcomes, jitters);
          return;
        case Break =>
          StopEnds(outcomes, jitters, attempt, Returned(None), before);
          break;
        case Retry(delayMs) =>
          trace := trace + [Wait(delayMs)];
          RetryExtends(outcomes, jitters, attempt, delayMs, before, trace);
      }
    }
    assert trace + [] == trace;
    assert Dispatched(outcomes, jitters, 0) == Run(Returned(None), trace);
    result := Returned(None);
    FetchChatResponseFacts(outcomes, jitters);
  }

  /** The loop body for attempt `attempt`, `try` and `catch` together: the
      response decides whether to return its body, throw, or wait; the
      `catch` retries network failures, rethrows client and server errors,
      and breaks on another error in the last attempt. */
  method TryAttempt(attempt: nat, outcome: FetchOutcome, jitter: nat) returns (step: Step)
    requires jitter < JITTER_CEILING_MS
    ensures step == AttemptStep(attempt, outcome, jitter)
  {
    var caught: Option<Exception> := None;
    match outcome {
      case Rejected(e) =>
        caught := Some(e);
      case Response(status, text, retryAfter, body) =>
        if IsOk(status) {
          return Return(body);
        }
        if status in CLIENT_ERROR_CODES {
          caught := Some(App(ClientError(status, text)));
        } else if status !in RETRYABLE_STATUS_CODES {
          caught := Some(App(ServerError(status, text)));
        } else {
          return Retry(CalculateDelay(attempt, retryAfter, jitter));
        }
    }
    var error := caught.value;
    if IsNetworkError(error) {
      return Retry(CalculateDelay(attempt, None, jitter));
    }
    if IsTerminal(error) {
      return Throw(error);
    }
    if attempt == MAX_RETRIES - 1 {
      return Break;
    }
    return Retry(CalculateDelay(attempt, None, jitter));
  }

  lemma {:induction false} RetryExtends(outcomes: seq<FetchOutcome>, jitters: seq<nat>, attempt: nat, delayMs: int,
                     before: seq<Event>, after: seq<Event>)
    requires Oracle(outcomes, jitters) && attempt < MAX_RETRIES
    requires AttemptStep(attempt, outcomes[attempt], jitters[attempt]) == Retry(delayMs)
    requires after == before + [Fetch(attempt)] + [Wait(delayMs)]
    ensures Prepend(before, Dispatched(outcomes, jitters, attempt)) ==
            Prepend(after, Dispatched(outcomes, jitters, attempt + 1))
  {
    var rest := Dispatched(outcomes, jitters, attempt + 1);
    assert Dispatched(outcomes, jitters, attempt) == Run(rest.result, [Fetch(attempt), Wait(delayMs)] + rest.trace);
    assert after + rest.trace == before + ([Fetch(attempt), Wait(delayMs)] + rest.trace);
  }

  lemma FetchChatResponseFacts(outcomes: seq<FetchOutcome>, jitters: seq<nat>)
    requires Oracle(outcomes, jitters)
    ensures var run := Dispatched(outcomes, jitters, 0);
      && 1 <= Fetches(run.trace) <= MAX_RETRIES && Waits(run.trace) <= Fetches(run.trace)
      && (run.result.Raised? ==> IsTerminal(run.result.error))
      && (outcomes[0].Response? && IsOk(outcomes[0].status) ==>
            run == Run(Returned(outcomes[0].body), [Fetch(0)]))
  {
    FetchCount(outcomes, jitters, 0);
    RaisedIsTerminal(outcomes, jitters, 0);
  }

  /** An attempt that returns, throws or breaks ends the call with the
      trace so far plus its own fetch. */
  lemma StopEnds(outcomes: seq<FetchOutcome>, jitters: seq<nat>, attempt: nat, result: CallResult,
                 before: seq<Event>)
    requires Oracle(outcomes, jitters) && attempt < MAX_RETRIES
    requires Dispatched(outcomes, jitters, 0) == Prepend(before, Dispatched(outcomes, jitters, attempt))
    requires var step := AttemptStep(attempt, outcomes[attempt], jitters[attempt]);
      || (step.Return? && result == Returned(step.body))
      || (step.Throw? && result == Raised(step.error))
      || (step.Break? && result == Returned(None))
    ensures Dispatched(outcomes, jitters, 0) == Run(result, before + [Fetch(attempt)])
  {
  }

  // ------------------------------------------------- properties of a call

  /** `fetch` runs at least once and at most once per remaining attempt, and
      every wait follows a fetch. */
  lemma {:induction false} FetchCount(outcomes: seq<FetchOutcome>, jitters: seq<nat>, attempt: nat)
    requires Oracle(outcomes, jitters) && attempt <= MAX_RETRIES
    ensures var run := Dispatched(outcomes, jitters, attempt);
      && Fetches(run.trace) <= MAX_RETRIES - attempt
      && (attempt < MAX_RETRIES ==> 1 <= Fetches(run.trace))
      && Waits(run.trace) <= Fetches(run.trace)
    decreases MAX_RETRIES - attempt
  {
    if attempt < MAX_RETRIES {
      var step := AttemptStep(attempt, outcomes[attempt], jitters[attempt]);
      if step.Retry? {
        FetchCount(outcomes, jitters, attempt + 1);
        FetchWaitPrefix(step.delayMs, attempt, Dispatched(outcomes, jitters, attempt + 1).trace);
      }
    }
  }

  /** Only a client or server error escapes a call (never a NetworkError,
      a TypeError or any other error), and nothing is fetched or awaited
      after it. */
  lemma {:induction false} RaisedIsTerminal(outcomes: seq<FetchOutcome>, jitters: seq<nat>, attempt: nat)
    requires Oracle(outcomes, jitters) && attempt <= MAX_RETRIES
    ensures var run := Dispatched(outcomes, jitters, attempt);
      run.result.Raised? ==>
        && IsTerminal(run.result.error)
        && run.trace != [] && run.trace[|run.trace| - 1].Fetch?
    decreases MAX_RETRIES - attempt
  {
    if attempt < MAX_RETRIES {
      var step := AttemptStep(attempt, outcomes[attempt], jitters[attempt]);
      if step.Retry? {
        RaisedIsTerminal(outcomes, jitters, attempt + 1);
      }
    }
  }
  /** A body's read can fail only with a platform error (a `TypeError` or a
      plain `Error`): no application error class is raised while a body is
      read. */
  predicate PlatformReadError(stream: Stream) {
    stream.readError.None? || !stream.readError.value.App?
  }

  /** Every body in the oracle's responses fails, if at all, with a
      platform error. */
  predicate PlatformStreams(outcomes: seq<FetchOutcome>) {
    forall i :: 0 <= i < |outcomes| && outcomes[i].Response? && outcomes[i].body.Some? ==>
      PlatformReadError(outcomes[i].body.value)
  }

  /** A stream the call resolves to is the body of one of the responses it
      fetched. */
  lemma {:induction false} ReturnedStreamIsBody(outcomes: seq<FetchOutcome>, jitters: seq<nat>, attempt: nat, stream: Stream)
    requires Oracle(outcomes, jitters) && attempt <= MAX_RETRIES
    requires Dispatched(outcomes, jitters, attempt).result == Returned(Some(stream))
    ensures exists i :: attempt <= i < MAX_RETRIES && outcomes[i].Response? && outcomes[i].body == Some(stream)
    decreases MAX_RETRIES - attempt
  {
    var step := AttemptStep(attempt, outcomes[attempt], jitters[attempt]);
    AttemptClassification(attempt, outcomes[attempt], jitters[attempt]);
    if step.Retry? {
      ReturnedStreamIsBody(outcomes, jitters, attempt + 1, stream);
    } else {
      assert outcomes[attempt].Response? && outcomes[attempt].body == Some(stream);
    }
  }

  /** When the bodies fail only with platform errors, so does the stream
      the call resolves to. */
  lemma ReturnedStreamPlatform(outcomes: seq<FetchOutcome>, jitters: seq<nat>, stream: Stream)
    requires Oracle(outcomes, jitters) && PlatformStreams(outcomes)
    requires Dispatched(outcomes, jitters, 0).result == Returned(Some(stream))
    ensures PlatformReadError(stream)
  {
    ReturnedStreamIsBody(outcomes, jitters, 0, stream);
  }


  /** An outcome after which the loop goes on (or, for an unknown error in the
      last attempt, breaks): a retryable status, or a rejection that is not a
      client or server error. */
  predicate Transient(o: FetchOutcome) {
    || (o.Response? && o.status in RETRYABLE_STATUS_CODES)
    || (o.Rejected? && !IsTerminal(o.error))
  }

  /** When every remaining attempt fails transiently, the call resolves to
      `null` after fetching once per attempt; it does not throw. */
  lemma {:induction false} ExhaustedReturnsNull(outcomes: seq<FetchOutcome>, jitters: seq<nat>, attempt: nat)
    requires Oracle(outcomes, jitters) && attempt <= MAX_RETRIES
    requires forall i :: attempt <= i < MAX_RETRIES ==> Transient(outcomes[i])
    ensures var run := Dispatched(outcomes, jitters, attempt);
      run.result == Returned(None) && Fetches(run.trace) == MAX_RETRIES - attempt
    decreases MAX_RETRIES - attempt
  {
    if attempt < MAX_RETRIES {
      var step := AttemptStep(attempt, outcomes[attempt], jitters[attempt]);
      if step.Retry? {
        ExhaustedReturnsNull(outcomes, jitters, attempt + 1);
        FetchWaitPrefix(step.delayMs, attempt, Dispatched(outcomes, jitters, attempt + 1).trace);
      } else {
        assert step.Break?;
        assert attempt == MAX_RETRIES - 1;
      }
    }
  }

  /** The trace of a call whose every remaining attempt gets a retryable
      status: each fetch followed by the wait its `Retry-After` asks for. */
  function RetryTrace(outcomes: seq<FetchOutcome>, jitters: seq<nat>, attempt: nat): seq<Event>
    requires Oracle(outcomes, jitters) && attempt <= MAX_RETRIES
    decreases MAX_RETRIES - attempt
  {
    if attempt == MAX_RETRIES then []
    else
      [Fetch(attempt), Wait(CalculateDelay(attempt, HintOf(outcomes[attempt]), jitters[attempt]))]
      + RetryTrace(outcomes, jitters, attempt + 1)
  }

  /** The `Retry-After` hint an outcome carries: none for a rejection. */
  function HintOf(o: FetchOutcome): Option<string> {
    if o.Response? then o.retryAfter else None
  }

  /** Retryable statuses on every remaining attempt: each fetch is followed
      by its wait (the last one included), and then the call resolves to
      `null`. */
  lemma {:induction false} RetryableStatusesWaitEach(outcomes: seq<FetchOutcome>, jitters: seq<nat>, attempt: nat)
    requires Oracle(outcomes, jitters) && attempt <= MAX_RETRIES
    requires forall i :: attempt <= i < MAX_RETRIES ==>
               outcomes[i].Response? && outcomes[i].status in RETRYABLE_STATUS_CODES
    ensures Dispatched(outcomes, jitters, attempt) == Run(Returned(None), RetryTrace(outcomes, jitters, attempt))
    ensures Fetches(RetryTrace(outcomes, jitters, attempt)) == MAX_RETRIES - attempt
    ensures Waits(RetryTrace(outcomes, jitters, attempt)) == MAX_RETRIES - attempt
    decreases MAX_RETRIES - attempt
  {
    if attempt < MAX_RETRIES {
      var d := CalculateDelay(attempt, outcomes[attempt].retryAfter, jitters[attempt]);
      RetryableStatusesWaitEach(outcomes, jitters, attempt + 1);
      RetryUnfolds(outcomes, jitters, attempt, d);
      FetchWaitPrefix(d, attempt, RetryTrace(outcomes, jitters, attempt + 1));
    }
  }

  lemma {:induction false} RetryUnfolds(outcomes: seq<FetchOutcome>, jitters: seq<nat>, attempt: nat, d: int)
    requires Oracle(outcomes, jitters) && attempt < MAX_RETRIES
    requires outcomes[attempt].Response? && outcomes[attempt].status in RETRYABLE_STATUS_CODES
    requires d == CalculateDelay(attempt, outcomes[attempt].retryAfter, jitters[attempt])
    ensures var rest := Dispatched(outcomes, jitters, attempt + 1);
      Dispatched(outcomes, jitters, attempt) == Run(rest.result, [Fetch(attempt), Wait(d)] + rest.trace)
  {
    assert AttemptStep(attempt, outcomes[attempt], jitters[attempt]) == Retry(d);
  }

  /** An unknown error in the last attempt ends the loop with no wait after it. */
  lemma UnknownErrorLastAttempt(outcomes: seq<FetchOutcome>, jitters: seq<nat>, e: Exception)
    requires Oracle(outcomes, jitters)
    requires outcomes[MAX_RETRIES - 1] == Rejected(e) && !IsNetworkError(e) && !IsTerminal(e)
    ensures Dispatched(outcomes, jitters, MAX_RETRIES - 1) == Run(Returned(None), [Fetch(MAX_RETRIES - 1)])
  {
  }

  /** 503 then 200: two fetches with exactly one wait between them, and the
      second response's body is returned. */
  lemma ServiceUnavailableThenOk(outcomes: seq<FetchOutcome>, jitters: seq<nat>)
    requires Oracle(outcomes, jitters)
    requires outcomes[0].Response? && outcomes[0].status == 503
    requires outcomes[1].Response? && outcomes[1].status == 200
    ensures Dispatched(outcomes, jitters, 0) ==
      Run(Returned(outcomes[1].body),
          [Fetch(0), Wait(CalculateDelay(0, outcomes[0].retryAfter, jitters[0])), Fetch(1)])
  {
  }

  /** 401: one fetch, no wait, and a ClientError carrying the status and the
      response text. */
  lemma UnauthorizedNoRetry(outcomes: seq<FetchOutcome>, jitters: seq<nat>)
    requires Oracle(outcomes, jitters)
    requires outcomes[0].Response? && outcomes[0].status == 401
    ensures Dispatched(outcomes, jitters, 0) ==
      Run(Raised(App(ClientError(401, outcomes[0].text))), [Fetch(0)])
  {
  }
}
