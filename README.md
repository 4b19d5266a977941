# AI Research Assistant front-end, modelled in Dafny

This project models the client-side logic of the AI Research Assistant, a React and TypeScript single-page app. The user types a research topic. The app submits it to a research backend as a job, polls the job's status until it finishes, fetches the report and renders it from a Markdown subset. A second path asks the Gemini service for a summary, grounding links, flash cards and speech.

The model covers the following parts:

- **The REST client** (`ResearchApi`, in `research_api.dfy`):
  - validation of the topic and the job id;
  - turning an HTTP response into a payload or an `ApiError`;
  - normalising whatever the transport throws;
  - the `pollJobStatus` loop, as the class `StatusPoller`.
- **The job lifecycle** (`ResearchJobs`, in `research_job.dfy`). `useResearchJob` becomes the class `JobController`: submit, status merge, result fetch and reset.
- **The generic polling hook** (`Polling`, in `polling.dfy`). `usePolling` becomes the class `PollingHook`.
- **The job status panel** (`JobStatusView`, in `job_status.dfy`):
  - error classification by keyword into a title, a message and help text;
  - message clean-up;
  - the render guards, the spinner and the progress text.
- **The report renderer** (`MarkdownBlocks` and `InlineMarkdown`, in `markdown.dfy` and `inline_markdown.dfy`):
  - `renderMarkdownContent` as a line-by-line block parser. It is the class `BlockParser` driven by the `while` loop of `RenderMarkdownContent`, proved equal to a fold of `Step` over the lines.
  - `renderInlineMarkdown` as four left-to-right replace passes and a split. Its loop is proved equal to a functional specification.
  - The download file name, in `ReportDownload`.
- **The chat input** (`ChatInput`, in `ai_input.dfy`):
  - the multi-line rule and the height cap;
  - the submit guard;
  - the microphone button;
  - the speech-recognition callbacks, including the transcript loop `CollectTranscripts`.
- **The topic form** (`TopicForm`, in `research_form.dfy`).
- **The flash-card viewer** (`FlashCardDeck`, in `flash_cards.dfy`).
- **The paper grid and its abstract dialog** (`PaperGrid` and `PaperModal`, in `papers_grid.dfy` and `abstract_modal.dfy`).
- **The pure helpers of the Gemini service** (`GeminiHelpers`, in `gemini.dfy`).
- **The PDF file name** (`PdfExport`, in `pdf_export.dfy`).

Supporting modules:

- `Wrappers` defines `Option` and `Result`.
- `Text` holds JavaScript's `trim`, `toLowerCase`, `includes`, `split` and `join`, restricted to ASCII.
- `ResearchTypes` holds the records of `src/types/research.ts`.

The network, the clock and the browser's speech recogniser are parameters or explicit events:

- a request's outcome is a function argument;
- a timer firing is a method call;
- the current time is a string argument.

Behaviour of the code worth noting:

- **The 'submitting' status.** A job exists only after the create request has answered, with status 'submitting'. No job is recorded in the 'submitting' state before any response.
- **Job ids are not checked.** A status delivered by a superseded poller is merged into whatever job is current, because the merge never compares job ids (`ResearchJobs.MergeIgnoresJobId`). No "result belongs to the current job" invariant holds, and none is claimed.
- **Reset does not cancel result fetches.** A fetch already in flight still settles after `resetJob` and writes its result or error.
- **A stale failure can outlive a new submit.** A stopped poller's outstanding request is still delivered. If it fails while the create request is awaited, its 'failed' status sets the error after `submitResearchJob` cleared it, and the new job starts with that error shown (`ResearchJobs.StaleFailureSurvivesSubmit`).
- **Overlapping checks orphan a timeout.** Every successful check of `usePolling` stores its new timeout in the one ref. When two checks overlap, the first timeout's id is overwritten, that poll chain keeps running, and `stopPolling` cannot clear it (`Polling.OverlappingChecksOutliveStop`).

## Model

| member | source | states |
|---|---|---|
| ResearchApi.HandleResponse | src/services/researchApi.ts:18-37 | A 2xx response with a parsable body yields that body. A 2xx response without one is a 'server' error "Invalid response format from server". A non-2xx response is a 'server' error carrying the status. Its message is the body's `message`, else its `error`, else "HTTP status: statusText". |
| ResearchApi.Settle | src/services/researchApi.ts:64-78 | A transport failure becomes the fixed 'network' connection error, any other throw a 'network' error with the operation's own message, and a response is judged by `HandleResponse`. The error is 'server' exactly when a response arrived (`SettledErrorKinds`). |
| ResearchApi.SettledErrorKinds | src/services/researchApi.ts:64-78 | After a request is made, an error is 'server' exactly when a response arrived and 'network' otherwise. The outcome is success exactly for a 2xx response with a parsable body. |
| ResearchApi.SubmitResearch | src/services/researchApi.ts:45-79 | A blank topic is a 'validation' error. Otherwise the result is the settled outcome of the request for the trimmed topic. |
| ResearchApi.SubmitValidatesBeforeSending | src/services/researchApi.ts:46-50 | A blank topic's outcome does not depend on the network. A non-blank topic's outcome depends only on the request for its trimmed text. The error is 'validation' exactly for a blank topic. |
| ResearchApi.GetJobStatus | src/services/researchApi.ts:87-115 | A blank job id is a 'validation' error. Otherwise the result is the settled status request for that id. |
| ResearchApi.GetResearchResult | src/services/researchApi.ts:176-211 | A blank job id is a 'validation' error. Otherwise the result is the settled result request for that id. |
| ResearchApi.DeliveredStatus | src/services/researchApi.ts:135-154 | The callback receives the fetched status. After a failure it receives a 'failed' status for the same job, carrying the error's message. |
| ResearchApi.RescheduleOnlyWhileActive | src/services/researchApi.ts:139-142 | A new poll is scheduled exactly while polling is active and the delivered status is 'pending' or 'running'. A terminal status or a failed request ends the loop. |
| ResearchApi.StatusPoller.constructor | src/services/researchApi.ts:124-158 | A new poller is active and has its first status request in flight. |
| ResearchApi.StatusPoller.Tick | src/services/researchApi.ts:132-133 | A firing timer issues the next request while polling. At most one request or one timer is outstanding at a time. |
| ResearchApi.StatusPoller.Respond | src/services/researchApi.ts:135-155 | An answer delivers `DeliveredStatus` even after `stop`. A timer is pending afterwards exactly when `Reschedules` holds. |
| ResearchApi.StatusPoller.Stop | src/services/researchApi.ts:160-167 | `stop` is idempotent. It deactivates polling and clears the pending timer, and a request in flight stays outstanding. |
| ResearchJobs.MergeStatus | src/hooks/useResearchJob.ts:38-45 | With no current job the result is none. Otherwise only the status and the message change, and the id, creation time and topic are kept. |
| ResearchJobs.MergeIgnoresJobId | src/hooks/useResearchJob.ts:38-45 | The merge is the same whatever job id or timestamp the status carries. |
| ResearchJobs.FailureMessage | src/hooks/useResearchJob.ts:87 | The stored failure message is the status message when that is non-empty, and "Research job failed" when it is empty. It is never empty. |
| ResearchJobs.RecordedResult | src/hooks/useResearchJob.ts:57-65 | The recorded result copies the response's fields and takes the topic from the job. An empty completion time is replaced by the clock. |
| ResearchJobs.JobController.constructor | src/hooks/useResearchJob.ts:17-23 | A new controller has no job, result or error, is not loading and has no poller. |
| ResearchJobs.JobController.SubmitStart | src/hooks/useResearchJob.ts:96-105 | Up to the `await`: loading turns on, error and result are cleared and the current poller is stopped, with its outstanding request still pending. The job and the queued fetches are left as they are. |
| ResearchJobs.JobController.SubmitSettle | src/hooks/useResearchJob.ts:108-132 | When the create request settles: on success the job is 'submitting' with the trimmed topic and a fresh poller starts for its id with one request in flight; error and result are not touched again. On failure the error message is recorded and there is no job. Loading ends in both cases. |
| ResearchJobs.JobController.OnStatusUpdate | src/hooks/useResearchJob.ts:35-93 | The job becomes `MergeStatus` of the old job. 'completed' turns loading on and queues a result fetch for the response's job id and the job's topic. 'failed' records `FailureMessage` and turns loading off. Without a job nothing else changes. |
| ResearchJobs.JobController.Deliver | src/hooks/useResearchJob.ts:122 | A poller's answer reaches `OnStatusUpdate` with the `DeliveredStatus`, whichever job it was for. The poller has one request fewer in flight and keeps its active flag. 'completed' turns loading on and queues one fetch, 'failed' records `FailureMessage` and ends loading, 'pending' and 'running' only merge. The result is untouched. |
| ResearchJobs.JobController.SettleFetch | src/hooks/useResearchJob.ts:53-82 | A response with a report, a summary or papers becomes the result and clears the error. One without content records "Research completed but no report was generated". A failure records its message. Loading ends in all cases. |
| ResearchJobs.JobController.Reset | src/hooks/useResearchJob.ts:136-148 | The poller is stopped and dropped. Job, result, error and loading are cleared. Pending fetches are untouched. |
| ResearchJobs.JobController.Unmount | src/hooks/useResearchJob.ts:26-32 | Unmounting stops the current poller. |
| ResearchJobs.StaleFailureSurvivesSubmit | src/hooks/useResearchJob.ts:87-122 | When a stopped poller's last request fails during the create request's `await`, its 'failed' status sets the error. The new job then starts 'submitting' with that stale error still recorded, and loading off. |
| ResearchJobs.HasContent | src/hooks/useResearchJob.ts:56 | A fetched response becomes the result exactly when it has a non-empty report, a non-empty summary or a non-empty paper list (`SettleFetch`). Otherwise the no-report error is recorded. |
| Polling.IntervalOf | src/hooks/usePolling.ts:20 | The interval is the given one, or 3000 when the option is absent or 0. It is always positive. |
| Polling.PollingHook.constructor | src/hooks/usePolling.ts:15-20 | The hook starts inactive, with no timeout scheduled (in the ref or orphaned), no job id and no check. |
| Polling.PollingHook.Poll | src/hooks/usePolling.ts:30-34 | A check starts only while active, with a function supplied and a non-empty job id. Nothing else changes. |
| Polling.PollingHook.StopPolling | src/hooks/usePolling.ts:72-81 | Stopping marks the hook inactive, clears the timeout held in the ref and forgets the job id. Orphaned timeouts and checks in flight are untouched. Repeating it changes nothing further. |
| Polling.PollingHook.StartPolling | src/hooks/usePolling.ts:54-69 | Without a function nothing changes. Otherwise the previous polling is stopped, the id is recorded, the hook becomes active and one check starts (for a non-empty id). Orphaned timeouts stay scheduled. |
| Polling.PollingHook.Tick | src/hooks/usePolling.ts:42 | A firing timeout, the one in the ref or an orphan, is used up and runs `poll`, which starts a check only while active. |
| Polling.PollingHook.CheckSettled | src/hooks/usePolling.ts:36-50 | After a success, the next check is scheduled iff the hook is active and `shouldContinue` holds (default true). The new timeout overwrites the ref, so a timeout the ref still held becomes an orphan. Otherwise, and after a failure, the hook becomes inactive and no timeout is added. |
| Polling.PollingHook.Unmount | src/hooks/usePolling.ts:23-27 | Unmounting runs `stopPolling`: inactive, the referenced timeout cleared, orphans left scheduled. |
| Polling.OverlappingChecksOutliveStop | src/hooks/usePolling.ts:36-81 | Two starts whose checks both succeed leave one orphaned timeout that survives `stopPolling`, while the hook reports itself inactive. |
| JobStatusView.FirstMatch | src/components/JobStatus.tsx:13-46 | There is no category exactly when no keyword group matches. Otherwise the category is one whose group matches, with no earlier group matching. |
| JobStatusView.CleanedMessage | src/components/JobStatus.tsx:94 | A leading "research failed:" in any case is removed, then the text is trimmed. Otherwise the message is only trimmed. |
| JobStatusView.Classify | src/components/JobStatus.tsx:7-47 | The empty message has no category. Otherwise the category is `FirstMatch` of the lower-cased text: the first keyword group that matches decides (`TitleFollowsFirstRule`), whatever the letter case (`CaseInsensitive`). |
| JobStatusView.ErrorTitle | src/components/JobStatus.tsx:7-47 | The title is "Research Failed" exactly when the message is empty or matches no keyword group. Otherwise it is that group's own title (`TitleFollowsFirstRule`, `FirstRuleWins`). |
| JobStatusView.ErrorMessage | src/components/JobStatus.tsx:52-95 | An empty message gets the generic message and an unmatched one is shown cleaned of its prefix (`UnclassifiedMessages`). A matched one gets the message of the first rule it matches (`ClassifiedMessages`). |
| JobStatusView.ErrorHelp | src/components/JobStatus.tsx:100-140 | There is help text exactly when the title is not the generic one (`HelpAbsentIffGenericTitle`). |
| JobStatusView.StatusInfoOf | src/components/JobStatus.tsx:152-197 | Each status has its heading. The spinner is on exactly for 'submitting', 'pending' and 'running' (`RenderRules`). |
| JobStatusView.ProgressText | src/components/JobStatus.tsx:254-258 | A progress text is shown exactly for 'submitting', 'pending' and 'running' (`RenderRules`). |
| JobStatusView.RenderJobStatus | src/components/JobStatus.tsx:146-289 | The panel renders exactly for a non-empty job id and a status other than 'idle' and 'completed'. The error box appears exactly for 'failed', with the classified title, message and help (`RenderRules`). |
| JobStatusView.TitleFollowsFirstRule | src/components/JobStatus.tsx:7-47 | A non-empty message gets the generic title exactly when no keyword group matches. Otherwise it gets the title of the first matching group. |
| JobStatusView.HelpAbsentIffGenericTitle | src/components/JobStatus.tsx:100-140 | There is no help text exactly when the title is "Research Failed". |
| JobStatusView.UnclassifiedMessages | src/components/JobStatus.tsx:52-95 | An empty message gets the generic title and the generic message. An unmatched message is shown cleaned. |
| JobStatusView.ClassifiedMessages | src/components/JobStatus.tsx:7-140 | A non-empty message that some keyword group matches gets its title, its message and its help text all from the first group it matches. |
| JobStatusView.CaseInsensitive | src/components/JobStatus.tsx:8-9 | Messages that differ only in letter case get the same title and help. |
| JobStatusView.FirstRuleWins | src/components/JobStatus.tsx:13-18 | "500 404" is titled by the earlier 'not found' test. |
| JobStatusView.RenderRules | src/components/JobStatus.tsx:146-289 | The panel renders exactly for a non-empty job id with status other than 'idle' and 'completed'. The spinner and progress text appear exactly for 'submitting', 'pending' and 'running'. The error panel appears exactly for 'failed', with the classified title, message and help. |
| MarkdownBlocks.BlockParser.constructor | src/components/ResearchResult.tsx:11-18 | A new parser has no output, no list items and no open code block. |
| MarkdownBlocks.BlockParser.FlushList | src/components/ResearchResult.tsx:20-33 | Flushing emits one bullet list of the collected items, if there are any, and clears them. |
| MarkdownBlocks.BlockParser.FlushCodeBlock | src/components/ResearchResult.tsx:35-47 | Flushing emits one code block of the collected lines joined by newlines, with the language, if there are any lines, and clears them. |
| MarkdownBlocks.BlockParser.HandleLine | src/components/ResearchResult.tsx:49-136 | A line is handled by the branches in source order: fence, line inside code, blank, heading, numbered, bullet, quote, paragraph. |
| MarkdownBlocks.RenderMarkdownContent | src/components/ResearchResult.tsx:10-143 | The loop's output equals `Render`: the fold of `Step` over the lines, followed by the final flushes. |
| MarkdownBlocks.KindOf | src/components/ResearchResult.tsx:49-136 | A line's kind is decided by the tests in source order: fence, blank, heading, numbered, bullet, quote, else paragraph text. `ParagraphLine`, `BulletsCollect` and `HeadingStep` state what each kind does. |
| MarkdownBlocks.Step | src/components/ResearchResult.tsx:49-136 | One iteration of the loop. `HandleLine` is proved to perform it. `NonBulletFlushesList`, `BulletsCollect`, `FencedLinesKept`, `BlankLineBreaks`, `NumberedLineAlone`, `HeadingStep` and `ParagraphLine` state its cases. |
| MarkdownBlocks.Run | src/components/ResearchResult.tsx:49 | The state after a run of lines. Runs compose (`RunAppend`), and list items are never collected inside a code block (`RunKeepsWf`). |
| MarkdownBlocks.Render | src/components/ResearchResult.tsx:10-143 | The loop's output equals it (`RenderMarkdownContent`). `SingleParagraph`, `BulletListRendered`, `FencedCode` and `HeadingBlankParagraph` state it on whole texts. |
| MarkdownBlocks.HeaderOf | src/components/ResearchResult.tsx:76-91 | n leading hashes give level n and tag h(min(n+2, 6)), with the text after the hashes and their whitespace (`HeaderLevels`, `OneHashHeader`). |
| MarkdownBlocks.RunAppend | src/components/ResearchResult.tsx:49 | Parsing two runs of lines equals parsing the first and continuing with the second. |
| MarkdownBlocks.RunKeepsWf | src/components/ResearchResult.tsx:49-136 | List items are never collected while a code block is open. |
| MarkdownBlocks.ParagraphLine | src/components/ResearchResult.tsx:130-135 | An ordinary line closes any open list and becomes a paragraph. |
| MarkdownBlocks.SingleParagraph | src/components/ResearchResult.tsx:130-140 | A text of one ordinary line renders as that one paragraph. |
| MarkdownBlocks.NonBulletFlushesList | src/components/ResearchResult.tsx:69-127 | Any non-bullet line outside code emits the pending list before its own block. |
| MarkdownBlocks.BulletsCollect | src/components/ResearchResult.tsx:111-115 | Consecutive bullet lines only collect their texts, in order. |
| MarkdownBlocks.BulletListRendered | src/components/ResearchResult.tsx:111-140 | A text of bullet lines renders as exactly one list of their texts. |
| MarkdownBlocks.FencedLinesKept | src/components/ResearchResult.tsx:62-66 | Inside a fence, every non-fence line is kept verbatim, heading-like and bullet-like lines included. |
| MarkdownBlocks.FencedRun | src/components/ResearchResult.tsx:51-66 | A fence, a body and an optional closing fence give one code block with the trimmed info string as its language. An unclosed fence is flushed at the end. |
| MarkdownBlocks.FencedCode | src/components/ResearchResult.tsx:51-66 | A fenced text renders as one code block of its body joined by newlines, or as nothing when the body is empty. |
| MarkdownBlocks.BlankLineBreaks | src/components/ResearchResult.tsx:69-73 | A blank line outside code closes the list and emits a line break. |
| MarkdownBlocks.NumberedLineAlone | src/components/ResearchResult.tsx:94-107 | A numbered line outside code closes the list and emits one numbered item of the text after "N. ". |
| MarkdownBlocks.HeadingStep | src/components/ResearchResult.tsx:76-91 | A heading line outside code closes the list and emits `HeaderOf(line)`. |
| MarkdownBlocks.HeaderLevels | src/components/ResearchResult.tsx:76-91 | n leading hashes give level n and tag h(min(n+2, 6)), and the text has its leading whitespace stripped. |
| MarkdownBlocks.OneHashHeader | src/components/ResearchResult.tsx:78-88 | "# t" is a level-1 header shown as h3 with text t. |
| MarkdownBlocks.HeadingBlankParagraph | src/components/ResearchResult.tsx:49-140 | A heading, a blank line and a text line render as header, line break and paragraph. |
| ReportDownload.Slug | src/components/ResearchResult.tsx:254 | The slug has the topic's length. Each ASCII letter or digit is lowercased and every other character becomes '-'. |
| ReportDownload.SlugIsNormal | src/components/ResearchResult.tsx:254 | A slug holds only a-z, 0-9 and '-', and slugging a slug changes nothing. |
| ReportDownload.ReportFileName | src/components/ResearchResult.tsx:254 | The name is "research-report-", the slug, '-', the date and ".txt". The slug keeps the topic's length and holds only a-z, 0-9 and '-' (`Slug`, `SlugIsNormal`). |
| InlineMarkdown.Find | src/components/ResearchResult.tsx:154-190 | Gives the first position at or after `from` holding the character, or the end. |
| InlineMarkdown.SingleClose | src/components/ResearchResult.tsx:154-178 | The end found is that of a span made of the delimiter, a non-empty group free of it and the delimiter again. Any such span at that start is the one found, so the group runs to the first closing delimiter. |
| InlineMarkdown.BoldClose | src/components/ResearchResult.tsx:166 | The end found is that of "**", a non-empty group with no '*', and "**". Any such span at that start is the one found. |
| InlineMarkdown.LinkClose | src/components/ResearchResult.tsx:190 | The positions found are those of "[label](url)" with a non-empty label free of ']' and a non-empty url free of ')'. Any such link at that start is the one found. |
| InlineMarkdown.MatchAt | src/components/ResearchResult.tsx:154-190 | A match ends after its start, within the text. Which span is matched is stated by `MatchAtFinds`. |
| InlineMarkdown.MatchAtFinds | src/components/ResearchResult.tsx:154-190 | A match is found exactly when the pass's pattern occupies a range starting there, and then it is that range, with the groups captured as the span. |
| InlineMarkdown.Replace | src/components/ResearchResult.tsx:154-205 | A global replace pass. The next free placeholder number never decreases. `ReplaceLeftmost`, `ReplaceTakesMatch` and `ReplaceUnparses` state what it keeps, what it replaces and that no text is lost. |
| InlineMarkdown.ReplaceLeftmost | src/components/ResearchResult.tsx:154-205 | The scan is leftmost-first: every piece before the first matching position is kept as it is, and numbering resumes there. |
| InlineMarkdown.ReplaceTakesMatch | src/components/ResearchResult.tsx:154-205 | At a matching position the match becomes the next numbered placeholder and the scan resumes after it. |
| InlineMarkdown.Substituted | src/components/ResearchResult.tsx:153-205 | The four passes in order (code, bold, italic, link), numbered from 0 across passes. Every code span in it, nested ones included, holds only characters (`CodeSpanIsOpaque`). |
| InlineMarkdown.Group | src/components/ResearchResult.tsx:208-221 | The split at the placeholders loses no text (`GroupUnparses`) and yields no empty and no adjacent text parts (`GroupShape`). |
| InlineMarkdown.RenderInline | src/components/ResearchResult.tsx:148-222 | The rendered parts re-serialise to the input and are never empty (`RenderInlineUnparses`). Code is never formatted further (`CodeSpanIsOpaque`). |
| InlineMarkdown.RenderInlineMarkdown | src/components/ResearchResult.tsx:148-222 | The loop's output equals `RenderInline` of the text. It is never empty, and re-serialising it gives back the input text. |
| InlineMarkdown.SplitAtPlaceholders | src/components/ResearchResult.tsx:208-221 | The loop's parts equal `Group` of the pieces: each run of characters is one text part and each placeholder its element, in order. |
| InlineMarkdown.MatchUnparses | src/components/ResearchResult.tsx:154-205 | The span matched by any of the four patterns re-serialises to exactly the text it replaced. |
| InlineMarkdown.ReplaceUnparses | src/components/ResearchResult.tsx:154-205 | A replace pass loses and invents no text. |
| InlineMarkdown.GroupUnparses | src/components/ResearchResult.tsx:208-221 | The split into parts loses and invents no text. |
| InlineMarkdown.RenderInlineUnparses | src/components/ResearchResult.tsx:148-222 | Re-serialising the rendered parts gives back the input, and the output is never empty. |
| InlineMarkdown.GroupShape | src/components/ResearchResult.tsx:208-221 | The split yields no empty text part and never two adjacent text parts. |
| InlineMarkdown.PlainTextUnchanged | src/components/ResearchResult.tsx:148-222 | A text with no '`', '*' or '[' and no "__" renders as itself, as one text part. |
| InlineMarkdown.CodeSpanIsOpaque | src/components/ResearchResult.tsx:153-163 | For every text, every code span left by the passes holds only characters, including one captured inside a later bold, italic or link span. Every rendered code element shows exactly its source text. |
| InlineMarkdown.SingleCodeSpan | src/components/ResearchResult.tsx:154-163 | A text that is one code span renders as one code element numbered 0, holding its characters verbatim. |
| InlineMarkdown.DisplayOfText | src/components/ResearchResult.tsx:154-205 | Content made only of characters is shown as exactly its source text. |
| InlineMarkdown.NestedPlaceholderShown | src/components/ResearchResult.tsx:166-176 | A code span captured inside a bold span is shown as its placeholder text "__CODE_n__", not as code. |
| InlineMarkdown.ReplaceWithoutOpener | src/components/ResearchResult.tsx:154-205 | A pass over pieces with no opening delimiter changes nothing. |
| ChatInput.TextareaHeight | src/components/AIInputComponent.tsx:226-231 | The height is the content height capped at 100. |
| ChatInput.ShouldBeMultiLine | src/components/AIInputComponent.tsx:202-209 | The layout is multi-line exactly for a value of at least 20 characters or with a newline. `SetValue` and `HandleTextChange` keep the flag equal to it. |
| ChatInput.CanSubmit | src/components/AIInputComponent.tsx:306-307 | `HandleSubmit` passes the topic on exactly when the value is non-blank and the box is neither loading nor disabled. |
| ChatInput.SendDisabled | src/components/AIInputComponent.tsx:448 | The send button is disabled exactly when `CanSubmit` fails (`SendButtonMatchesGuard`). |
| ChatInput.SendButtonMatchesGuard | src/components/AIInputComponent.tsx:307 | The send button is disabled exactly when `handleSubmit`'s guard fails. |
| ChatInput.CollectTranscripts | src/components/AIInputComponent.tsx:118-128 | The loop's buffers equal the final and interim texts of the results from `resultIndex` on. |
| ChatInput.TextsAppend | src/components/AIInputComponent.tsx:121-128 | Scanning two runs of results concatenates their texts. |
| ChatInput.FinalTextPresent | src/components/AIInputComponent.tsx:123-130 | The final text is non-empty exactly when some scanned result is final. |
| ChatInput.InterimOnly | src/components/AIInputComponent.tsx:126 | Without final results, the interim text is every transcript in order. |
| ChatInput.MicActionFor | src/components/AIInputComponent.tsx:273-303 | Unsupported speech alerts. Otherwise a loading or disabled input ignores the click, and a recording stops or an idle recogniser starts. |
| ChatInput.CallsOnMicClick | src/components/AIInputComponent.tsx:273-303 | `onMicClick` runs exactly when speech is unsupported, or when the box is neither loading nor disabled (`HandleMicClick`). |
| ChatInput.ErrorAlert | src/components/AIInputComponent.tsx:150-159 | An alert is raised exactly for 'audio-capture' and 'not-allowed'. |
| ChatInput.AppendTwice | src/components/AIInputComponent.tsx:132-134 | Two final additions in a row build one space-separated text. |
| ChatInput.InputBox.constructor | src/components/AIInputComponent.tsx:77-91 | The box starts empty, single-line, not animating and not recording. |
| ChatInput.InputBox.SetValue | src/components/AIInputComponent.tsx:202-209 | The value is stored and the multi-line flag follows it. Nothing else changes. |
| ChatInput.InputBox.HandleTextChange | src/components/AIInputComponent.tsx:202-209 | The new value is stored, and multi-line holds iff it has at least 20 characters or a newline. |
| ChatInput.InputBox.HandleSubmit | src/components/AIInputComponent.tsx:305-327 | The trimmed value is passed on exactly when it is non-empty and the box is neither loading nor disabled. A running recogniser is stopped and the clearing timeout is scheduled. Otherwise nothing happens. |
| ChatInput.InputBox.HandleKeyDown | src/components/AIInputComponent.tsx:263-270 | Enter without Shift prevents the newline and submits. Any other key, Shift+Enter included, does neither. |
| ChatInput.InputBox.ClearAfterSubmit | src/components/AIInputComponent.tsx:320-325 | The timeout clears the value and the recognised text and ends multi-line and animating. |
| ChatInput.InputBox.HandleMicClick | src/components/AIInputComponent.tsx:273-303 | The action is `MicActionFor` of the box's state, and the click changes no state. The callback runs unless the click is ignored. |
| ChatInput.InputBox.OnStart | src/components/AIInputComponent.tsx:106-115 | Recording starts with the trimmed current text as its base, or with no base when the textarea is not mounted. |
| ChatInput.InputBox.OnResult | src/components/AIInputComponent.tsx:117-143 | With final text, the trimmed text is appended to the base after one space (or becomes the base) and the value shows the base. With only interim text, the value is the base plus the interim text. With neither, nothing changes. |
| ChatInput.InputBox.OnError | src/components/AIInputComponent.tsx:145-160 | Recording stops, and the alert is `ErrorAlert` of the code. |
| ChatInput.InputBox.OnEnd | src/components/AIInputComponent.tsx:162-165 | Recording stops and the recognised text is kept. |
| TopicForm.ValidityIgnoresPadding | src/components/ResearchForm.tsx:15-20 | Surrounding whitespace does not change validity. |
| TopicForm.ValidTopic | src/components/ResearchForm.tsx:15-20 | A topic is valid when its trimmed length is between 1 and 500. Surrounding whitespace does not change it (`ValidityIgnoresPadding`). |
| TopicForm.Form.constructor | src/components/ResearchForm.tsx:11-12 | The form starts with an empty topic, marked invalid. |
| TopicForm.Form.HandleTopicChange | src/components/ResearchForm.tsx:23-27 | The topic is stored and the flag becomes whether its trimmed length is between 1 and 500. |
| TopicForm.Form.ValidateTopic | src/components/ResearchForm.tsx:15-20 | The returned and stored flag is the validity of the given text. |
| TopicForm.Form.HandleSubmit | src/components/ResearchForm.tsx:30-37 | The trimmed topic goes to the parent exactly when the submit button is enabled. It is then 1 to 500 characters long. |
| TopicForm.Form.ErrorHintCases | src/components/ResearchForm.tsx:64 | The hint shows exactly for a non-empty topic that is blank, or longer than 500 once trimmed. |
| TopicForm.Form.ShowsError | src/components/ResearchForm.tsx:64 | In a consistent form the hint shows exactly for a non-empty topic that is blank, or longer than 500 once trimmed (`ErrorHintCases`). |
| TopicForm.Form.SubmitDisabled | src/components/ResearchForm.tsx:40 | In a consistent form the button is disabled exactly for an invalid topic, or while loading or disabled (`SubmitDisabledWhenConsistent`). |
| TopicForm.Form.SubmitDisabledWhenConsistent | src/components/ResearchForm.tsx:40 | The button is disabled exactly for an invalid topic, or while loading or disabled. |
| FlashCardDeck.NextIndex | src/components/FlashCards.tsx:18 | The next index stays in range and wraps from the last card to the first. |
| FlashCardDeck.PrevIndex | src/components/FlashCards.tsx:23 | The previous index stays in range and wraps from the first card to the last. |
| FlashCardDeck.PrevAfterNext | src/components/FlashCards.tsx:16-24 | Prev undoes Next. |
| FlashCardDeck.NextAfterPrev | src/components/FlashCards.tsx:16-24 | Next undoes Prev. |
| FlashCardDeck.FullCycle | src/components/FlashCards.tsx:18 | As many Nexts as there are cards return to the start. |
| FlashCardDeck.ViewOf | src/components/FlashCards.tsx:12-14 | A missing or empty deck shows the placeholder and indexes nothing. Otherwise the current card is shown with counter index+1 of n. |
| FlashCardDeck.Viewer.HandleNext | src/components/FlashCards.tsx:16-19 | Shows the front of the next card. |
| FlashCardDeck.Viewer.HandlePrev | src/components/FlashCards.tsx:21-24 | Shows the front of the previous card. |
| FlashCardDeck.Viewer.Flip | src/components/FlashCards.tsx:32 | A click turns the card over and keeps the index. |
| PaperModal.KeyCallbacks | src/components/AbstractModal.tsx:29-35 | While closed, no callback runs. Escape calls `onClose`, ArrowRight calls `onNext` only with `hasNext`, and ArrowLeft calls `onPrev` only with `hasPrev`. At most one callback runs. |
| PaperModal.ButtonsMatchKeys | src/components/AbstractModal.tsx:123-134 | Next and Prev are enabled exactly when the matching arrow key has an effect. |
| PaperModal.NextDisabled | src/components/AbstractModal.tsx:134 | The Next button is enabled exactly when ArrowRight would call `onNext` (`ButtonsMatchKeys`). |
| PaperModal.PrevDisabled | src/components/AbstractModal.tsx:125 | The Prev button is enabled exactly when ArrowLeft would call `onPrev` (`ButtonsMatchKeys`). |
| PaperModal.AuthorsLabel | src/components/AbstractModal.tsx:101 | An empty list shows "Unknown Authors". A single author is shown alone, and the label starts with the first author. |
| PaperModal.AuthorsAllShown | src/components/AbstractModal.tsx:101 | Every author appears in the label. |
| PaperModal.DateLabel | src/components/AbstractModal.tsx:49-51 | An empty date shows "Unknown Date". Otherwise the date is shown formatted. |
| PaperModal.ContentOf | src/components/AbstractModal.tsx:55 | Content renders exactly when the dialog is open and has a paper. |
| PaperGrid.Grid.constructor | src/components/PapersGrid.tsx:12 | Nothing is selected at first. |
| PaperGrid.Grid.IsOpen | src/components/PapersGrid.tsx:48 | The dialog is open exactly while a paper is selected, and then it shows that paper (`ModalPaper`). |
| PaperGrid.Grid.HasNext | src/components/PapersGrid.tsx:52 | Next moves the selection exactly when a paper is selected that is not the last (`HandleNext`). |
| PaperGrid.Grid.HasPrev | src/components/PapersGrid.tsx:53 | Prev moves the selection exactly when a paper is selected that is not the first (`HandlePrev`). |
| PaperGrid.Grid.ModalPaper | src/components/PapersGrid.tsx:47-48 | The dialog's paper is the selected paper, and it exists exactly while the dialog is open. |
| PaperGrid.Grid.Select | src/components/PapersGrid.tsx:41 | Reading card idx's abstract selects idx. |
| PaperGrid.Grid.Close | src/components/PapersGrid.tsx:49 | Closing clears the selection. |
| PaperGrid.Grid.HandleNext | src/components/PapersGrid.tsx:14-18 | Moves exactly one on when `hasNext` holds, else changes nothing. The selection stays a valid index. |
| PaperGrid.Grid.HandlePrev | src/components/PapersGrid.tsx:20-24 | Moves exactly one back when `hasPrev` holds, else changes nothing. The selection stays a valid index. |
| PaperGrid.Grid.PressKey | src/components/PapersGrid.tsx:46-54 | A key routed through the dialog closes, steps or leaves the selection as `KeyCallbacks` dictates. |
| PaperGrid.Grid.ContentShownIffSelected | src/components/PapersGrid.tsx:47-48 | The dialog shows content exactly while a paper is selected. |
| GeminiHelpers.MapChunk | src/services/geminiService.ts:28-39 | A chunk maps to a link and title exactly when both are present and non-empty, and they are copied unchanged. |
| GeminiHelpers.KeptChunks | src/services/geminiService.ts:27-40 | The kept chunks are never more than the raw ones, and each has a non-empty link and title. |
| GeminiHelpers.KeptAppend | src/services/geminiService.ts:27-40 | Filtering preserves order: the chunks of a concatenation are those of each part, in order. |
| GeminiHelpers.KeptExactly | src/services/geminiService.ts:27-40 | Every usable chunk is kept, and every kept chunk comes from a usable one. |
| GeminiHelpers.KeptAllOrNone | src/services/geminiService.ts:27-40 | All-usable input is kept whole, and input with none usable yields nothing. |
| GeminiHelpers.ResearchSummaryOf | src/services/geminiService.ts:22-46 | Summary and raw text are the same non-empty text: the response text, or "No result generated." when it is missing or empty. Missing grounding data gives no chunks. |
| GeminiHelpers.StripMarkup | src/services/geminiService.ts:173 | The result is no longer than the input and holds no '#', '*', '`' or '_'. Plain text is unchanged and the other characters keep their order (`StripMarkupKeepsPlain`, `StripMarkupAppend`). |
| GeminiHelpers.StripMarkupKeepsPlain | src/services/geminiService.ts:173 | Text without '#', '*', '`' or '_' is not changed by stripping. |
| GeminiHelpers.StripMarkupAppend | src/services/geminiService.ts:173 | Stripping keeps the other characters in order. |
| GeminiHelpers.CleanText | src/services/geminiService.ts:173 | The speech text has no Markdown character and is a prefix of the stripped text: all of it when that has at most 4000 characters, exactly its first 4000 otherwise. |
| GeminiHelpers.CleanTextIdempotent | src/services/geminiService.ts:173 | Cleaning twice equals cleaning once. |
| GeminiHelpers.CleanBase64 | src/services/geminiService.ts:244 | The result is the input, or a non-empty comma-free segment. |
| GeminiHelpers.CleanBase64Segment | src/services/geminiService.ts:244 | The result is the text between the first comma and the next one (or the end) when non-empty. Otherwise, or with no comma, it is the input. |
| GeminiHelpers.DataUrlPayload | src/services/geminiService.ts:243-244 | A data URL "header,payload" gives its payload. |
| GeminiHelpers.PlainBase64Unchanged | src/services/geminiService.ts:244 | Input without a comma is passed through. |
| GeminiHelpers.Suggestions | src/services/geminiService.ts:154-162 | A failed call, a missing or empty text, or unparsable text gives the empty list. A text that parses gives exactly the parsed list. |
| PdfExport.Underscored | src/hooks/usePdfExport.ts:8 | The result has no whitespace and is no longer than the topic. |
| PdfExport.UnderscoredKeepsWords | src/hooks/usePdfExport.ts:8 | A topic without whitespace is unchanged. |
| PdfExport.RunBecomesOneUnderscore | src/hooks/usePdfExport.ts:8 | A whole run of whitespace, however long, becomes one '_'. |
| PdfExport.UnderscoredAppend | src/hooks/usePdfExport.ts:8 | The two sides of a cut outside a whitespace run convert independently. |
| PdfExport.PdfFileName | src/hooks/usePdfExport.ts:8 | The name is the converted topic followed by "_research.pdf". |
| PdfExport.TwoWords | src/hooks/usePdfExport.ts:8 | Two words separated by any whitespace are joined by exactly one '_'. |

## Left out

- **Network.** `fetch`, JSON parsing, URL building with `encodeURIComponent`, the dynamic/legacy endpoint choice and the Gemini SDK calls are parameters or left out. A request's outcome is a function argument.
- **Timers.** The interval and timeout delays are not modelled. Scheduled timers are a flag (the one a ref holds) and a count (orphaned ones), and a firing is a method call.
- **The stale closure in `usePolling`.** There `poll` reads an `isPolling` value captured when the callback was created, so the check right after `startPolling` sees the old value. Polling.PollingHook keeps `isPolling` as a plain field that every step reads afresh, and does not reproduce React batching.
- **React rendering.** Markup, CSS classes, animations, `motion` and icons are not part of this model. Each render-time effect is folded into the step that triggers it; for example, the multi-line effect of the chat input runs with every change of the value.
- **Locale formatting.** `toLocaleDateString`, `toLocaleString` and ISO timestamps are string parameters.
- **Text handling is ASCII.** Whitespace, case folding and `\s` are ASCII only. The Unicode whitespace and letters JavaScript also recognises are not modelled.
- **Lengths count characters, not UTF-16 code units.** A Dafny `char` is one Unicode scalar value, while JavaScript's `length`, `slice` and regular expressions work on UTF-16 code units. So a character outside the Basic Multilingual Plane (an emoji, say) counts once here and twice in the source. This affects `TopicForm.ValidTopic` (the 500 limit), `ChatInput.ShouldBeMultiLine` (the 20 limit), `ReportDownload.Slug` (the source turns each half of a surrogate pair into its own '-') and `GeminiHelpers.CleanText` (the 4000 cut).
- **The poll callback throwing.** An exception thrown by `onStatusUpdate` inside the `try` of `poll` is not modelled. In the source it would be reported as a second, 'failed' status.
- **Unreachable fallback messages.** These are the non-`ApiError` branches that produce "Failed to submit research job", "Failed to check job status" and "Failed to retrieve research results". Every error the API layer throws carries a message.
- InlineMarkdown.RenderInlineMarkdown: requires that the text contain no "__". Text that already holds a placeholder-like "__CODE_0__" would be taken apart by the source's final split. That collision is not modelled.
- InlineMarkdown.MatchAt: a placeholder inside a later span is kept as one numbered slot rather than as its characters. No pattern can tell the two apart, since placeholder text holds no delimiter. What such a span shows is the placeholder text, given by `Shown` and `Display`; the styled rendering of that text is not modelled.
- **Form field length.** The `maxLength={500}` attribute of the topic input is not modelled. Browsers enforce it, not the component, and validation already rejects longer trimmed topics.
- **Error text.** The three error functions of `JobStatus` repeat one ordered keyword chain. The model states that chain once, as the rule table `Rules`, and derives title, message and help from the first matching rule. The message and help strings of each category are copied verbatim.
- **Changing props.** A FlashCards deck or PapersGrid list that changes while an index is selected is not modelled; both are fixed per instance. The source keeps the old index in that case.
- **Left out entirely.** `structureResearchData` and the image generation and editing calls, beyond `cleanBase64`, are network-only. So is the audio check in `generateSpeech`.
- **Unused.** The `alert` dialogs are modelled only as returned messages.
