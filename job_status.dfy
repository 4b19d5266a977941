/** The job-status panel: the three error classifiers (title, message, help),
    each an ordered chain of case-insensitive substring tests, the
    status-to-presentation table and the rule that decides whether the panel
    renders at all. */
module JobStatusView {
  import opened Wrappers
  import opened Text
  import opened ResearchTypes

  const GenericTitle := "Research Failed"
  const GenericMessage := "The research job failed to complete. Please try again with a different topic or check your connection."

  /** The ten classification rules `getErrorTitle`, `getErrorMessage` and
      `getErrorHelp` share: each chain tests the same keyword groups in the
      same order and answers from the first group the message mentions. */
  datatype ErrorCategory =
    | NotFound | InternalError | BadGateway | Unavailable | Unauthorized | Forbidden
    | ApiConfiguration | Connection | RateLimit | InvalidRequest

  /** The rules in the order they are tried, each with its keywords. */
  const Rules: seq<(ErrorCategory, seq<string>)> := [
    (NotFound, ["404", "not found"]),
    (InternalError, ["500", "internal server error"]),
    (BadGateway, ["502", "bad gateway"]),
    (Unavailable, ["503", "service unavailable"]),
    (Unauthorized, ["401", "unauthorized"]),
    (Forbidden, ["403", "forbidden"]),
    (ApiConfiguration, ["authentication", "api_key", "openai_api_key"]),
    (Connection, ["network", "connection", "timeout"]),
    (RateLimit, ["rate limit", "quota"]),
    (InvalidRequest, ["invalid", "validation"])
  ]

  /** The text includes at least one of the keywords. */
  predicate MentionsAny(l: string, keywords: seq<string>) {
    exists k :: 0 <= k < |keywords| && Contains(l, keywords[k])
  }

  /** The first rule, in table order, one of whose keywords the text
      mentions: the result's rule matches and no earlier rule does, and there
      is no result exactly when no rule matches. */
  function FirstMatch(l: string, rules: seq<(ErrorCategory, seq<string>)>): (r: Option<ErrorCategory>)
    ensures r.None? <==> forall k :: 0 <= k < |rules| ==> !MentionsAny(l, rules[k].1)
    ensures r.Some? ==> exists k :: 0 <= k < |rules| && rules[k].0 == r.value && MentionsAny(l, rules[k].1)
                                    && forall j :: 0 <= j < k ==> !MentionsAny(l, rules[j].1)
  {
    if rules == [] then None
    else if MentionsAny(l, rules[0].1) then Some(rules[0].0)
    else
      var r := FirstMatch(l, rules[1..]);
      assert forall k :: 1 <= k < |rules| ==> rules[k] == rules[1..][k - 1];
      if r.Some? then
        var k :| 0 <= k < |rules[1..]| && rules[1..][k].0 == r.value && MentionsAny(l, rules[1..][k].1)
                  && forall j :: 0 <= j < k ==> !MentionsAny(l, rules[1..][j].1);
        assert rules[k + 1] == rules[1..][k];
        assert forall j :: 0 <= j < k + 1 ==> !MentionsAny(l, rules[j].1) by {
          forall j | 0 <= j < k + 1 ensures !MentionsAny(l, rules[j].1) {
            if j > 0 { assert rules[j] == rules[1..][j - 1]; }
          }
        }
        r
      else
        r
  }

  /** The category of a message: none for the empty message (the chains'
      `!message` guard), else the first rule its lower-cased text matches. */
  function Classify(message: string): Option<ErrorCategory> {
    if message == "" then None else FirstMatch(ToLower(message), Rules)
  }

  function CategoryTitle(c: ErrorCategory): (t: string)
    ensures t != GenericTitle
  {
    match c
    case NotFound => "Service Not Found"
    case InternalError => "Server Error"
    case BadGateway => "Service Unavailable"
    case Unavailable => "Service Temporarily Unavailable"
    case Unauthorized => "Authentication Required"
    case Forbidden => "Access Denied"
    case ApiConfiguration => "API Configuration Error"
    case Connection => "Connection Error"
    case RateLimit => "API Limit Reached"
    case InvalidRequest => "Invalid Request"
  }

  function CategoryMessage(c: ErrorCategory): string {
    match c
    case NotFound => "The research service endpoint could not be found. The service may not be running or the URL may be incorrect."
    case InternalError => "The research service encountered an internal error. This is a server-side issue that needs to be resolved by the service administrator."
    case BadGateway => "The research service is currently unavailable. The server may be down or experiencing connectivity issues."
    case Unavailable => "The research service is temporarily unavailable, possibly due to maintenance or high load."
    case Unauthorized => "Authentication is required to access the research service. Please check your credentials."
    case Forbidden => "Access to the research service is denied. You may not have the required permissions."
    case ApiConfiguration => "The research service is not properly configured with API credentials. This is a server configuration issue."
    case Connection => "Unable to connect to the research service. Please check your internet connection and try again."
    case RateLimit => "The research service has reached its usage limit. Please try again later."
    case InvalidRequest => "The research request was invalid. Please try with a different topic."
  }

  function CategoryHelp(c: ErrorCategory): string {
    match c
    case NotFound => "Verify that the research service is running on localhost:8000 and that the API endpoints are correctly configured."
    case InternalError => "Check the server logs for detailed error information. This usually indicates a bug in the server code or a configuration issue."
    case BadGateway => "Ensure the research service is running and accessible. Check if there are any proxy or load balancer issues."
    case Unavailable => "Wait a few minutes and try again. If the problem persists, contact your system administrator."
    case Unauthorized => "Check that your authentication credentials are valid and properly configured in the application."
    case Forbidden => "Contact your administrator to verify that your account has the necessary permissions to use the research service."
    case ApiConfiguration => "Contact your system administrator to configure the OpenAI API key in the server environment variables."
    case Connection => "Check that the research service is running on localhost:8000 and your internet connection is stable."
    case RateLimit => "Wait a few minutes before trying again, or contact your administrator about increasing API limits."
    case InvalidRequest => "Try rephrasing your research topic or make it more specific."
  }

  /** `getErrorTitle`. */
  function ErrorTitle(message: string): string {
    match Classify(message)
    case None => GenericTitle
    case Some(c) => CategoryTitle(c)
  }

  /** `getErrorMessage`. */
  function ErrorMessage(message: string): string {
    match Classify(message)
    case None => if message == "" then GenericMessage else CleanedMessage(message)
    case Some(c) => CategoryMessage(c)
  }

  /** `getErrorHelp`; `None` is the source's `null`. */
  function ErrorHelp(message: string): Option<string> {
    match Classify(message)
    case None => None
    case Some(c) => Some(CategoryHelp(c))
  }

  /** The prefix removed (in any letter case) from an unclassified message. */
  const ResearchFailedPrefix := "research failed:"

  /** `message.replace(/^Research failed:\s*\/i, '')`: the prefix, in any
      letter case, and the whitespace after it are removed. */
  function DropResearchFailed(message: string): string {
    if StartsWith(ToLower(message), ResearchFailedPrefix) then TrimStart(message[|ResearchFailedPrefix|..])
    else message
  }

  /** The cleaned text of an unclassified message: the trimmed text after
      the prefix when the message starts with it in any letter case, else
      the trimmed message. */
  function CleanedMessage(message: string): (r: string)
    ensures !StartsWith(ToLower(message), ResearchFailedPrefix) ==> r == Trim(message)
    ensures StartsWith(ToLower(message), ResearchFailedPrefix) ==> r == Trim(message[|ResearchFailedPrefix|..])
  {
    if StartsWith(ToLower(message), ResearchFailedPrefix) then
      TrimAfterTrimStart(message[|ResearchFailedPrefix|..]);
      Trim(DropResearchFailed(message))
    else
      Trim(DropResearchFailed(message))
  }

  /** Trimming the front first does not change the trimmed text. */
  lemma {:induction false} TrimAfterTrimStart(s: string)
    ensures Trim(TrimStart(s)) == Trim(s)
  {
    if s != [] && IsSpace(s[0]) {
      TrimAfterTrimStart(s[1..]);
    }
  }

  /** A non-empty message gets the generic title exactly when no rule
      matches it, and the title of the first rule that does otherwise. */
  lemma {:induction false} TitleFollowsFirstRule(message: string)
    requires message != ""
    ensures ErrorTitle(message) == GenericTitle <==>
              forall k :: 0 <= k < |Rules| ==> !MentionsAny(ToLower(message), Rules[k].1)
    ensures ErrorTitle(message) != GenericTitle ==>
              exists k :: 0 <= k < |Rules| && CategoryTitle(Rules[k].0) == ErrorTitle(message)
                          && MentionsAny(ToLower(message), Rules[k].1)
                          && forall j :: 0 <= j < k ==> !MentionsAny(ToLower(message), Rules[j].1)
  {
  }

  /** For every message, there is no help exactly when the title is the
      generic one. */
  lemma {:induction false} HelpAbsentIffGenericTitle(message: string)
    ensures ErrorHelp(message).None? <==> ErrorTitle(message) == GenericTitle
  {
  }

  /** The empty message gets the generic title and text and no help; an
      unclassified non-empty message is shown cleaned. */
  lemma {:induction false} UnclassifiedMessages(message: string)
    ensures message == "" ==> ErrorMessage(message) == GenericMessage && ErrorTitle(message) == GenericTitle
                              && ErrorHelp(message).None?
    ensures message != "" && ErrorTitle(message) == GenericTitle ==> ErrorMessage(message) == CleanedMessage(message)
  {
  }

  /** A message some rule matches is answered wholly from the first such
      rule: its title, its message and its help. */
  lemma {:induction false} ClassifiedMessages(message: string)
    ensures message != "" && ErrorTitle(message) != GenericTitle ==>
              exists k :: 0 <= k < |Rules|
                          && ErrorTitle(message) == CategoryTitle(Rules[k].0)
                          && ErrorMessage(message) == CategoryMessage(Rules[k].0)
                          && ErrorHelp(message) == Some(CategoryHelp(Rules[k].0))
                          && MentionsAny(ToLower(message), Rules[k].1)
                          && forall j :: 0 <= j < k ==> !MentionsAny(ToLower(message), Rules[j].1)
  {
  }

  /** Classification ignores letter case. */
  lemma {:induction false} CaseInsensitive(a: string, b: string)
    requires ToLower(a) == ToLower(b)
    ensures ErrorTitle(a) == ErrorTitle(b)
    ensures ErrorHelp(a) == ErrorHelp(b)
  {
    assert |a| == |ToLower(a)| == |ToLower(b)| == |b|;
    assert Classify(a) == Classify(b);
  }

  /** Rules are tried in order: a message naming both a server error and a
      missing service is classified as the missing service. */
  lemma FirstRuleWins()
    ensures ErrorTitle("500 404") == "Service Not Found"
  {
    var l := ToLower("500 404");
    assert l == "500 404";
    assert OccursAt(l, "404", 4);
    assert Rules[0].1[0] == "404";
    assert Contains(l, Rules[0].1[0]);
    assert MentionsAny(l, Rules[0].1);
    assert FirstMatch(l, Rules) == Some(NotFound);
    assert Classify("500 404") == Some(NotFound);
  }

  /** What `getStatusInfo` returns, without the CSS class and icon. */
  datatype StatusInfo = StatusInfo(title: string, showSpinner: bool)

  function StatusInfoOf(status: JobStatus): StatusInfo {
    match status
    case Submitting => StatusInfo("Submitting Research Request", true)
    case JobPending => StatusInfo("Research Queued", true)
    case JobRunning => StatusInfo("Research in Progress", true)
    case JobCompleted => StatusInfo("Research Completed", false)
    case JobFailed => StatusInfo("Research Failed", false)
    case Idle => StatusInfo("Unknown Status", false)
  }

  /** The error box shown for a failed job. */
  datatype ErrorPanel = ErrorPanel(title: string, message: string, help: Option<string>)

  /** What the panel renders. */
  datatype StatusPanel = StatusPanel(
    title: string,
    message: string,
    jobId: string,
    showSpinner: bool,
    progressText: Option<string>,
    errorPanel: Option<ErrorPanel>)

  function ProgressText(status: JobStatus): Option<string> {
    match status
    case Submitting => Some("Initializing research crew...")
    case JobPending => Some("Waiting for research crew to start...")
    case JobRunning => Some("AI agents are researching your topic...")
    case _ => None
  }

  /** The `JobStatus` component; `None` is a render of nothing. */
  function RenderJobStatus(jobId: Option<string>, status: JobStatus, message: string): Option<StatusPanel> {
    if jobId.None? || jobId.value == "" || status == Idle then None
    else if status == JobCompleted then None
    else
      var info := StatusInfoOf(status);
      Some(StatusPanel(
        info.title, message, jobId.value, info.showSpinner,
        if info.showSpinner then ProgressText(status) else None,
        if status == JobFailed then Some(ErrorPanel(ErrorTitle(message), ErrorMessage(message), ErrorHelp(message))) else None))
  }

  /** The panel renders exactly for a non-empty job id and a status other
      than 'idle' and 'completed'; spinner and progress bar show exactly for
      'submitting', 'pending' and 'running'; the error box exactly for
      'failed', with the classified title, message and help. */
  lemma {:induction false} RenderRules(jobId: Option<string>, status: JobStatus, message: string)
    ensures RenderJobStatus(jobId, status, message).Some? <==>
              jobId.Some? && jobId.value != "" && status != Idle && status != JobCompleted
    ensures RenderJobStatus(jobId, status, message).Some? ==>
              var p := RenderJobStatus(jobId, status, message).value;
              && (p.showSpinner <==> status in {Submitting, JobPending, JobRunning})
              && (p.progressText.Some? <==> status in {Submitting, JobPending, JobRunning})
              && (p.errorPanel.Some? <==> status == JobFailed)
              && (status == JobFailed ==>
                    && p.errorPanel.value.title == ErrorTitle(message)
                    && p.errorPanel.value.message == ErrorMessage(message)
                    && p.errorPanel.value.help == ErrorHelp(message))
  {
  }
}
