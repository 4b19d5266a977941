/** The research-job lifecycle controller of `useResearchJob`: it submits a
    topic, polls the job's status through a `StatusPoller`, fetches the
    result once the job completes, and resets. Each awaited promise is an
    explicit event: a submit is `SubmitStart` up to its `await` and
    `SubmitSettle` once the create request answers, a poll
    answer is `Deliver`, and a result fetch settles in `SettleFetch`. */
module ResearchJobs {
  import opened Wrappers
  import opened Text
  import opened ResearchTypes
  import opened ResearchApi

  const NoReportMessage := "Research completed but no report was generated"
  const JobFailedMessage := "Research job failed"
  /** The poll interval `pollJobStatus` uses when none is given. */
  const DefaultPollInterval: nat := 3000

  /** A result fetch started by a 'completed' status and not yet settled:
      the job id it asks for (taken from the status response) and the topic
      of the job the status was merged into. */
  datatype PendingFetch = PendingFetch(jobId: string, topic: string)

  /** The `setCurrentJob` updater of `handleStatusUpdate`: no job stays no
      job; otherwise only the status and the message change. */
  function MergeStatus(prev: Option<ResearchJob>, s: ResearchJobResponse): (r: Option<ResearchJob>)
    ensures prev.None? <==> r.None?
    ensures r.Some? ==> r.value.status == AsJobStatus(s.status) && r.value.message == s.message
    ensures r.Some? ==> r.value.jobId == prev.value.jobId && r.value.createdAt == prev.value.createdAt
                        && r.value.topic == prev.value.topic
  {
    match prev
    case None => None
    case Some(job) => Some(job.(status := AsJobStatus(s.status), message := s.message))
  }

  /** The merge never looks at the response's job id or timestamp: a status
      delivered for another job (a late answer to a superseded poller) is
      merged into the current job all the same. */
  lemma {:induction false} MergeIgnoresJobId(prev: Option<ResearchJob>, s: ResearchJobResponse, otherId: string, otherTime: string)
    ensures MergeStatus(prev, s.(jobId := otherId, createdAt := otherTime)) == MergeStatus(prev, s)
  {
    match prev {
      case None =>
      case Some(job) =>
        var a := MergeStatus(prev, s.(jobId := otherId, createdAt := otherTime));
        var b := MergeStatus(prev, s);
        assert a.value == job.(status := AsJobStatus(s.status), message := s.message) == b.value;
    }
  }

  /** The message stored for a 'failed' status. */
  function FailureMessage(s: ResearchJobResponse): (m: string)
    ensures m != ""
    ensures s.message != "" ==> m == s.message
    ensures s.message == "" ==> m == JobFailedMessage
  {
    if s.message != "" then s.message else JobFailedMessage
  }

  /** A fetched result is recorded only if it has a non-empty report, a
      non-empty summary or a non-empty list of papers. */
  predicate HasContent(r: ResearchResultResponse) {
    (r.report.Some? && r.report.value != "")
    || (r.summary.Some? && r.summary.value != "")
    || (r.papers.Some? && |r.papers.value| > 0)
  }

  /** The result recorded for a fetched response; the topic is carried from
      the job, since the result endpoint's own topic is not used. `now`
      stands for the clock reading used when `completed_at` is empty. */
  function RecordedResult(r: ResearchResultResponse, topic: string, now: string): (res: ResearchResult)
    ensures res.jobId == r.jobId && res.topic == topic
    ensures res.report == r.report && res.summary == r.summary && res.papers == r.papers
    ensures res.keyInsights == r.keyInsights
    ensures res.completedAt == (if r.completedAt != "" then r.completedAt else now)
  {
    ResearchResult(r.jobId, r.report, r.summary, r.papers, r.keyInsights,
                   if r.completedAt != "" then r.completedAt else now, topic)
  }

  class JobController {
    var currentJob: Option<ResearchJob>
    var result: Option<ResearchResult>
    var error: Option<string>
    var isLoading: bool
    /** `pollingControlRef.current`. */
    var poller: StatusPoller?
    /** Result fetches in flight, in the order they were started. */
    var pendingFetches: seq<PendingFetch>

    ghost predicate Valid()
      reads this, poller
    {
      poller != null ==> poller.Valid()
    }

    constructor ()
      ensures Valid()
      ensures currentJob.None? && result.None? && error.None? && !isLoading
      ensures poller == null && pendingFetches == []
    {
      currentJob, result, error, isLoading := None, None, None, false;
      poller := null;
      pendingFetches := [];
    }

    /** `submitResearchJob(topic)` up to its `await`: loading on, error and
        result cleared, and any existing poller stopped. The job itself is
        left as it was until the create request settles; a stopped poller's
        outstanding request, and any result fetch, can still land in between. */
    method SubmitStart()
      requires Valid()
      modifies this, poller
      ensures Valid()
      ensures isLoading && error.None? && result.None?
      ensures currentJob == old(currentJob) && poller == old(poller) && pendingFetches == old(pendingFetches)
      ensures poller != null ==> !poller.isPolling && !poller.timerPending && poller.inFlight == old(poller.inFlight)
    {
      isLoading := true;
      error := None;
      result := None;
      if poller != null {
        poller.Stop();
      }
    }

    /** The rest of `submitResearchJob(topic)`, once the create-job request
        settles with the outcome given by `send`. On success the job is
        recorded with status 'submitting' and the trimmed topic and a new
        poller starts for its id; the error and result are not touched
        again. On failure the error message is recorded and there is no job.
        Loading is off after either outcome. */
    method SubmitSettle(topic: string, send: string -> FetchOutcome<ResearchJobResponse>)
      requires Valid()
      modifies this
      ensures Valid()
      ensures !isLoading && result == old(result) && pendingFetches == old(pendingFetches)
      ensures SubmitResearch(topic, send).Ok? ==>
                var r := SubmitResearch(topic, send).value;
                && currentJob == Some(ResearchJob(r.jobId, Submitting, r.message, r.createdAt, Trim(topic)))
                && error == old(error)
                && poller != null && fresh(poller) && poller.jobId == r.jobId
                && poller.intervalMs == DefaultPollInterval
                && poller.isPolling && poller.inFlight == 1 && !poller.timerPending
      ensures SubmitResearch(topic, send).Err? ==>
                && currentJob.None? && poller == old(poller)
                && error == Some(SubmitResearch(topic, send).error.message)
    {
      var response := SubmitResearch(topic, send);
      match response {
        case Ok(r) =>
          currentJob := Some(ResearchJob(r.jobId, Submitting, r.message, r.createdAt, Trim(topic)));
          poller := new StatusPoller(r.jobId, DefaultPollInterval);
        case Err(e) =>
          error := Some(e.message);
          currentJob := None;
      }
      isLoading := false;
    }

    /** `handleStatusUpdate(s)`. With no current job nothing happens.
        Otherwise the status and message are merged into the job; a
        'completed' status turns loading on and starts a result fetch for the
        response's job id and the job's topic; a 'failed' status records its
        message (or a fixed one) and turns loading off. */
    method OnStatusUpdate(s: ResearchJobResponse)
      modifies this
      ensures poller == old(poller) && result == old(result)
      ensures currentJob == MergeStatus(old(currentJob), s)
      ensures old(currentJob).None? ==>
                error == old(error) && isLoading == old(isLoading) && pendingFetches == old(pendingFetches)
      ensures old(currentJob).Some? && s.status == Completed ==>
                isLoading && error == old(error)
                && pendingFetches == old(pendingFetches) + [PendingFetch(s.jobId, old(currentJob).value.topic)]
      ensures old(currentJob).Some? && s.status == Failed ==>
                !isLoading && error == Some(FailureMessage(s)) && pendingFetches == old(pendingFetches)
      ensures old(currentJob).Some? && (s.status == Pending || s.status == Running) ==>
                isLoading == old(isLoading) && error == old(error) && pendingFetches == old(pendingFetches)
    {
      if currentJob.None? {
        return;
      }
      var prev := currentJob.value;
      currentJob := MergeStatus(currentJob, s);
      if s.status == Completed {
        isLoading := true;
        pendingFetches := pendingFetches + [PendingFetch(s.jobId, prev.topic)];
      }
      if s.status == Failed {
        error := Some(FailureMessage(s));
        isLoading := false;
      }
    }

    /** A poller (the current one or a superseded one) answers its
        outstanding status request, and the delivered status goes to
        `OnStatusUpdate` whatever job it belongs to. */
    method Deliver(p: StatusPoller, outcome: FetchOutcome<ResearchJobResponse>, now: string)
      requires Valid() && p.Valid() && p.inFlight > 0
      modifies this, p
      ensures Valid() && poller == old(poller) && result == old(result)
      ensures p.inFlight == old(p.inFlight) - 1 && p.isPolling == old(p.isPolling)
      ensures p.timerPending <==> Reschedules(old(p.isPolling), p.jobId, outcome)
      ensures currentJob == MergeStatus(old(currentJob), DeliveredStatus(p.jobId, outcome, now))
      ensures old(currentJob).None? ==>
                error == old(error) && isLoading == old(isLoading) && pendingFetches == old(pendingFetches)
      ensures var s := DeliveredStatus(p.jobId, outcome, now);
              old(currentJob).Some? && s.status == Completed ==>
                isLoading && error == old(error)
                && pendingFetches == old(pendingFetches) + [PendingFetch(s.jobId, old(currentJob).value.topic)]
      ensures var s := DeliveredStatus(p.jobId, outcome, now);
              old(currentJob).Some? && s.status == Failed ==>
                !isLoading && error == Some(FailureMessage(s)) && pendingFetches == old(pendingFetches)
      ensures var s := DeliveredStatus(p.jobId, outcome, now);
              old(currentJob).Some? && (s.status == Pending || s.status == Running) ==>
                isLoading == old(isLoading) && error == old(error) && pendingFetches == old(pendingFetches)
    {
      var s := p.Respond(outcome, now);
      OnStatusUpdate(s);
    }

    /** The `k`-th pending result fetch settles with `outcome`. A response
        with content is recorded as the result and clears the error; one
        without content records the no-report error; a failed fetch records
        its error's message. Loading is off afterwards. */
    method SettleFetch(k: nat, outcome: FetchOutcome<ResearchResultResponse>, now: string)
      requires k < |pendingFetches|
      modifies this
      ensures currentJob == old(currentJob) && poller == old(poller) && !isLoading
      ensures pendingFetches == old(pendingFetches[..k] + pendingFetches[k + 1..])
      ensures var f := old(pendingFetches[k]); var res := GetResearchResult(f.jobId, _ => outcome);
              res.Ok? && HasContent(res.value) ==> result == Some(RecordedResult(res.value, f.topic, now)) && error.None?
      ensures var res := GetResearchResult(old(pendingFetches[k]).jobId, _ => outcome);
              res.Ok? && !HasContent(res.value) ==> result == old(result) && error == Some(NoReportMessage)
      ensures var res := GetResearchResult(old(pendingFetches[k]).jobId, _ => outcome);
              res.Err? ==> result == old(result) && error == Some(res.error.message)
    {
      var f := pendingFetches[k];
      pendingFetches := pendingFetches[..k] + pendingFetches[k + 1..];
      var res := GetResearchResult(f.jobId, _ => outcome);
      if res.Err? {
        error := Some(res.error.message);
      } else if HasContent(res.value) {
        result := Some(RecordedResult(res.value, f.topic, now));
        error := None;
      } else {
        error := Some(NoReportMessage);
      }
      isLoading := false;
    }

    /** `resetJob()`: from any state, stops and forgets the poller and clears
        job, result, error and loading. Result fetches already in flight are
        not cancelled. */
    method Reset()
      requires Valid()
      modifies this, poller
      ensures Valid()
      ensures currentJob.None? && result.None? && error.None? && !isLoading && poller == null
      ensures old(poller) != null ==> !old(poller).isPolling && !old(poller).timerPending
      ensures pendingFetches == old(pendingFetches)
    {
      if poller != null {
        poller.Stop();
        poller := null;
      }
      currentJob := None;
      result := None;
      error := None;
      isLoading := false;
    }

    /** The unmount cleanup: stops the poller, if any. */
    method Unmount()
      requires Valid()
      modifies poller
      ensures Valid()
      ensures poller != null ==> !poller.isPolling && !poller.timerPending
    {
      if poller != null {
        poller.Stop();
      }
    }
  }

  /** A stopped poller's last request fails while the create request is
      outstanding: its synthesized 'failed' status sets the error, and the
      new job then starts with that stale error still shown. */
  method StaleFailureSurvivesSubmit(c: JobController, topic: string,
                                    send: string -> FetchOutcome<ResearchJobResponse>, now: string)
    requires c.Valid() && c.poller != null && c.poller.inFlight > 0 && !IsBlank(c.poller.jobId)
    requires c.currentJob.Some? && SubmitResearch(topic, send).Ok?
    modifies c, c.poller
    ensures c.currentJob.Some? && c.currentJob.value.status == Submitting
    ensures c.error == Some(ConnectionMessage) && !c.isLoading
  {
    var previous := c.poller;
    c.SubmitStart();
    c.Deliver(previous, TransportFailure, now);
    c.SubmitSettle(topic, send);
  }
}
