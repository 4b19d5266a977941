/** The research front-end's data: API responses, the job and result records
    the application keeps, and the uniform API error. Optional TypeScript
    fields are `Option`s. */
module ResearchTypes {
  import opened Wrappers

  /** The status the backend reports for a job. */
  datatype RemoteStatus = Pending | Running | Completed | Failed

  /** The status the application shows for a job. */
  datatype JobStatus = Idle | Submitting | JobPending | JobRunning | JobCompleted | JobFailed

  /** The cast `statusResponse.status as JobStatus`. */
  function AsJobStatus(s: RemoteStatus): JobStatus {
    match s
    case Pending => JobPending
    case Running => JobRunning
    case Completed => JobCompleted
    case Failed => JobFailed
  }

  /** Response of the create-job and job-status endpoints. */
  datatype ResearchJobResponse = ResearchJobResponse(
    jobId: string,
    status: RemoteStatus,
    createdAt: string,
    message: string)

  datatype ResearchPaper = ResearchPaper(
    title: string,
    authors: seq<string>,
    published: string,
    summary: string,
    pdfUrl: string)

  /** Response of the result endpoint (the `status` and `sources` fields are
      never read by the front-end and are not carried). */
  datatype ResearchResultResponse = ResearchResultResponse(
    jobId: string,
    report: Option<string>,
    summary: Option<string>,
    papers: Option<seq<ResearchPaper>>,
    keyInsights: Option<seq<string>>,
    completedAt: string,
    topic: string,
    message: Option<string>)

  /** The job record the application keeps. */
  datatype ResearchJob = ResearchJob(
    jobId: string,
    status: JobStatus,
    message: string,
    createdAt: string,
    topic: string)

  /** The result record the application keeps. */
  datatype ResearchResult = ResearchResult(
    jobId: string,
    report: Option<string>,
    summary: Option<string>,
    papers: Option<seq<ResearchPaper>>,
    keyInsights: Option<seq<string>>,
    completedAt: string,
    topic: string)

  datatype ErrorType = Network | Server | Validation | Timeout

  /** The uniform error every API call rejects with. */
  datatype ApiError = ApiError(message: string, status: Option<nat>, kind: ErrorType)
}
