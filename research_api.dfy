/** The REST client of the research backend: input validation, turning an
    HTTP response into a payload or an `ApiError`, normalising whatever the
    transport throws, and the status poll loop of `pollJobStatus`.

    The network is a parameter: `send`/`fetch` map the request's one varying
    input (the trimmed topic, or the job id) to what `fetch` produced. */
module ResearchApi {
  import opened Wrappers
  import opened Text
  import opened ResearchTypes

  /** A JSON body, read both as the expected payload (the `as T` cast) and
      through its `message` and `error` fields ("" when absent or falsy). */
  datatype JsonBody<T> = JsonBody(payload: T, messageField: string, errorField: string)

  /** An HTTP response; `body` is `None` when `response.json()` throws. */
  datatype HttpResponse<T> = HttpResponse(status: nat, statusText: string, body: Option<JsonBody<T>>)

  /** What a `fetch` call produced: a response, a thrown `TypeError` (the
      request never reached a server), or any other thrown value. */
  datatype FetchOutcome<T> = Received(response: HttpResponse<T>) | TransportFailure | OtherFailure

  const ConnectionMessage := "Unable to connect to the research service. Please check your connection."
  const InvalidFormatMessage := "Invalid response format from server"
  const EmptyTopicMessage := "Research topic cannot be empty"
  const EmptyJobIdMessage := "Job ID cannot be empty"
  const SubmitFailureMessage := "An unexpected error occurred while submitting research"
  const StatusFailureMessage := "An unexpected error occurred while checking job status"
  const ResultFailureMessage := "An unexpected error occurred while retrieving research results"

  /** `response.ok`. */
  predicate IsOk(status: nat) {
    200 <= status <= 299
  }

  /** The default message of a non-2xx response. */
  function HttpStatusMessage(status: nat, statusText: string): string {
    "HTTP " + NatToString(status) + ": " + statusText
  }

  /** `handleResponse`: a 2xx response yields its parsed body; a non-2xx
      response is a 'server' error carrying the status and the first present
      of the body's `message`, its `error` and "HTTP <status>: <statusText>";
      a 2xx response whose body does not parse is a 'server' error too. */
  function HandleResponse<T>(r: HttpResponse<T>): (res: Result<T, ApiError>)
    ensures IsOk(r.status) && r.body.Some? ==> res == Ok(r.body.value.payload)
    ensures IsOk(r.status) && r.body.None? ==> res == Err(ApiError(InvalidFormatMessage, Some(r.status), Server))
    ensures !IsOk(r.status) ==> res.Err? && res.error.kind == Server && res.error.status == Some(r.status)
    ensures !IsOk(r.status) && r.body.Some? && r.body.value.messageField != "" ==>
              res.error.message == r.body.value.messageField
    ensures !IsOk(r.status) && r.body.Some? && r.body.value.messageField == "" && r.body.value.errorField != "" ==>
              res.error.message == r.body.value.errorField
    ensures !IsOk(r.status) && (r.body.None? || (r.body.value.messageField == "" && r.body.value.errorField == "")) ==>
              res.error.message == HttpStatusMessage(r.status, r.statusText)
  {
    if !IsOk(r.status) then
      var fallback := HttpStatusMessage(r.status, r.statusText);
      var errorMessage :=
        match r.body
        case None => fallback
        case Some(b) => if b.messageField != "" then b.messageField else if b.errorField != "" then b.errorField else fallback;
      Err(ApiError(errorMessage, Some(r.status), Server))
    else
      match r.body
      case None => Err(ApiError(InvalidFormatMessage, Some(r.status), Server))
      case Some(b) => Ok(b.payload)
  }

  /** The `try`/`catch` around every request: a `TypeError` becomes the
      fixed 'network' error, an `ApiError` thrown by `HandleResponse` is
      re-thrown unchanged, anything else becomes a 'network' error with the
      operation's own message. */
  function Settle<T>(outcome: FetchOutcome<T>, unexpected: string): Result<T, ApiError> {
    match outcome
    case TransportFailure => Err(ApiError(ConnectionMessage, None, Network))
    case OtherFailure => Err(ApiError(unexpected, None, Network))
    case Received(r) => HandleResponse(r)
  }

  /** Once a request is made, its error is 'server' exactly when a response
      arrived and 'network' otherwise; it is never 'validation' or 'timeout'. */
  lemma {:induction false} SettledErrorKinds<T>(outcome: FetchOutcome<T>, unexpected: string)
    ensures Settle(outcome, unexpected).Err? ==>
              (Settle(outcome, unexpected).error.kind == Server <==> outcome.Received?) &&
              (Settle(outcome, unexpected).error.kind == Network <==> !outcome.Received?)
    ensures outcome.Received? && IsOk(outcome.response.status) && outcome.response.body.Some? <==>
              Settle(outcome, unexpected).Ok?
  {
    match outcome
    case TransportFailure =>
    case OtherFailure =>
    case Received(r) =>
      if IsOk(r.status) {
        if r.body.Some? { } else { }
      } else {
        assert HandleResponse(r).Err?;
      }
  }

  /** `submitResearch`: a blank topic (one that `trim` empties) is a
      'validation' error; otherwise the request carries the trimmed topic. */
  function SubmitResearch(topic: string, send: string -> FetchOutcome<ResearchJobResponse>): (res: Result<ResearchJobResponse, ApiError>)
    ensures IsBlank(topic) ==> res == Err(ApiError(EmptyTopicMessage, None, Validation))
    ensures !IsBlank(topic) ==> res == Settle(send(Trim(topic)), SubmitFailureMessage)
  {
    if IsBlank(topic) then Err(ApiError(EmptyTopicMessage, None, Validation))
    else Settle(send(Trim(topic)), SubmitFailureMessage)
  }

  /** A blank topic is rejected before any request: the outcome does not
      depend on the network at all. A valid topic depends only on what the
      request for its trimmed text produced. The error is 'validation'
      exactly for a blank topic. */
  lemma {:induction false} SubmitValidatesBeforeSending(topic: string, send1: string -> FetchOutcome<ResearchJobResponse>,
                                                        send2: string -> FetchOutcome<ResearchJobResponse>)
    ensures IsBlank(topic) ==> SubmitResearch(topic, send1) == SubmitResearch(topic, send2)
    ensures send1(Trim(topic)) == send2(Trim(topic)) ==> SubmitResearch(topic, send1) == SubmitResearch(topic, send2)
    ensures (SubmitResearch(topic, send1).Err? && SubmitResearch(topic, send1).error.kind == Validation) <==> IsBlank(topic)
  {
    if !IsBlank(topic) {
      SettledErrorKinds(send1(Trim(topic)), SubmitFailureMessage);
    }
  }

  /** `getJobStatus`: a blank job id (one that `trim` empties) is a
      'validation' error; otherwise the
      status of that job is requested. */
  function GetJobStatus(jobId: string, fetch: string -> FetchOutcome<ResearchJobResponse>): (res: Result<ResearchJobResponse, ApiError>)
    ensures IsBlank(jobId) ==> res == Err(ApiError(EmptyJobIdMessage, None, Validation))
    ensures !IsBlank(jobId) ==> res == Settle(fetch(jobId), StatusFailureMessage)
  {
    if IsBlank(jobId) then Err(ApiError(EmptyJobIdMessage, None, Validation))
    else Settle(fetch(jobId), StatusFailureMessage)
  }

  /** `getResearchResult`: a blank job id (one that `trim` empties) is a
      'validation' error; otherwise
      the result of that job is requested. */
  function GetResearchResult(jobId: string, fetch: string -> FetchOutcome<ResearchResultResponse>): (res: Result<ResearchResultResponse, ApiError>)
    ensures IsBlank(jobId) ==> res == Err(ApiError(EmptyJobIdMessage, None, Validation))
    ensures !IsBlank(jobId) ==> res == Settle(fetch(jobId), ResultFailureMessage)
  {
    if IsBlank(jobId) then Err(ApiError(EmptyJobIdMessage, None, Validation))
    else Settle(fetch(jobId), ResultFailureMessage)
  }

  /** The status `poll` hands to the callback for one answered request: the
      fetched status, or, when the request failed, a synthesized 'failed'
      status for the same job carrying the error's message. `now` stands for
      the `created_at` timestamp the source takes from the clock. */
  function DeliveredStatus(jobId: string, outcome: FetchOutcome<ResearchJobResponse>, now: string): (s: ResearchJobResponse)
    ensures GetJobStatus(jobId, _ => outcome).Ok? ==> s == GetJobStatus(jobId, _ => outcome).value
    ensures GetJobStatus(jobId, _ => outcome).Err? ==>
              s == ResearchJobResponse(jobId, Failed, now, GetJobStatus(jobId, _ => outcome).error.message)
  {
    match GetJobStatus(jobId, _ => outcome)
    case Ok(status) => status
    case Err(e) => ResearchJobResponse(jobId, Failed, now, e.message)
  }

  /** Whether `poll` schedules another poll after one answered request. */
  predicate Reschedules(isPolling: bool, jobId: string, outcome: FetchOutcome<ResearchJobResponse>) {
    var res := GetJobStatus(jobId, _ => outcome);
    isPolling && res.Ok? && (res.value.status == Pending || res.value.status == Running)
  }

  /** A failed request, or a terminal status, ends the poll loop, and a
      stopped loop never continues. */
  lemma {:induction false} RescheduleOnlyWhileActive(isPolling: bool, jobId: string, outcome: FetchOutcome<ResearchJobResponse>, now: string)
    ensures Reschedules(isPolling, jobId, outcome) ==>
              isPolling && (DeliveredStatus(jobId, outcome, now).status == Pending || DeliveredStatus(jobId, outcome, now).status == Running)
    ensures isPolling && GetJobStatus(jobId, _ => outcome).Ok? &&
            (DeliveredStatus(jobId, outcome, now).status == Pending || DeliveredStatus(jobId, outcome, now).status == Running) ==>
              Reschedules(isPolling, jobId, outcome)
    ensures DeliveredStatus(jobId, outcome, now).status in {Completed, Failed} ==> !Reschedules(isPolling, jobId, outcome)
    ensures GetJobStatus(jobId, _ => outcome).Err? ==>
              !Reschedules(isPolling, jobId, outcome) && DeliveredStatus(jobId, outcome, now).jobId == jobId
  {
  }

  /** The closure state of one `pollJobStatus` call. At most one step of the
      loop is outstanding at any time: either one status request in flight
      or one timer pending, never both. */
  class StatusPoller {
    const jobId: string
    /** `intervalMs`; the delay itself is not modelled, only whether a timer is pending. */
    const intervalMs: nat
    var isPolling: bool
    var timerPending: bool
    /** Status requests issued and not yet answered. */
    var inFlight: nat

    ghost predicate Valid()
      reads this
    {
      && inFlight + (if timerPending then 1 else 0) <= 1
      && (timerPending ==> isPolling)
    }

    /** `pollJobStatus(jobId, onStatusUpdate, intervalMs)`: polls once
        immediately. */
    constructor (jobId: string, intervalMs: nat)
      ensures Valid()
      ensures this.jobId == jobId && this.intervalMs == intervalMs
      ensures isPolling && !timerPending && inFlight == 1
    {
      this.jobId := jobId;
      this.intervalMs := intervalMs;
      isPolling := true;
      timerPending := false;
      inFlight := 1;
    }

    /** The scheduled timeout fires and runs `poll`, which requests the
        status unless polling was stopped. */
    method Tick()
      requires Valid() && timerPending
      modifies this
      ensures Valid()
      ensures !timerPending && isPolling == old(isPolling)
      ensures inFlight == old(inFlight) + 1
    {
      timerPending := false;
      if isPolling {
        inFlight := inFlight + 1;
      }
    }

    /** The outstanding status request is answered. The status (or the
        synthesized 'failed' status) is delivered even when polling was
        stopped meanwhile; another poll is scheduled only while polling and
        only for a 'pending' or 'running' status. */
    method Respond(outcome: FetchOutcome<ResearchJobResponse>, now: string) returns (delivered: ResearchJobResponse)
      requires Valid() && inFlight > 0
      modifies this
      ensures Valid()
      ensures delivered == DeliveredStatus(jobId, outcome, now)
      ensures inFlight == old(inFlight) - 1 && isPolling == old(isPolling)
      ensures timerPending <==> Reschedules(old(isPolling), jobId, outcome)
    {
      inFlight := inFlight - 1;
      var res := GetJobStatus(jobId, _ => outcome);
      match res {
        case Ok(status) =>
          delivered := status;
          if isPolling && (status.status == Pending || status.status == Running) {
            timerPending := true;
          }
        case Err(e) =>
          delivered := ResearchJobResponse(jobId, Failed, now, e.message);
      }
    }

    /** `stop()`: idempotent; clears the pending timer, so no later poll
        runs; a request already in flight is still answered. */
    method Stop()
      requires Valid()
      modifies this
      ensures Valid()
      ensures !isPolling && !timerPending && inFlight == old(inFlight)
    {
      isPolling := false;
      if timerPending {
        timerPending := false;
      }
    }
  }
}
