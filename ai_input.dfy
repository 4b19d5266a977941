/** The chat input box `AIInputComponent`: its text value, the multi-line
    layout rule, the submit guard shared by Enter and the send button, the
    microphone button, and the speech-recognition callbacks that merge
    recognised text into the value.

    Render-time effects are folded into the step that triggers them: every
    change of the value also re-evaluates the multi-line rule, as the effect
    on `[value, isMultiLine]` does on the next render. The 300 ms clearing
    timeout after a submit is an explicit event (`ClearAfterSubmit`). */
module ChatInput {
  import opened Wrappers
  import opened Text

  /** Values this long or longer switch the box to multi-line layout. */
  const MultiLineThreshold: nat := 20

  /** Heights are capped at this many pixels. */
  const MaxHeight: nat := 100

  /** Multi-line layout: at least 20 characters, or a line break. */
  predicate ShouldBeMultiLine(value: string) {
    |value| >= MultiLineThreshold || '\n' in value
  }

  /** `Math.min(scrollHeight, 100)`: the content height, capped. */
  function TextareaHeight(scrollHeight: nat): (h: nat)
    ensures h <= MaxHeight && h <= scrollHeight
    ensures h == scrollHeight || h == MaxHeight
    ensures scrollHeight <= MaxHeight ==> h == scrollHeight
  {
    if scrollHeight < MaxHeight then scrollHeight else MaxHeight
  }

  /** The guard of `handleSubmit`: a non-blank value while neither loading
      nor disabled. */
  predicate CanSubmit(value: string, isLoading: bool, disabled: bool) {
    Trim(value) != "" && !isLoading && !disabled
  }

  /** The `disabled` expression of the send button. */
  predicate SendDisabled(value: string, isLoading: bool, disabled: bool) {
    Trim(value) == "" || isLoading || disabled
  }

  /** The send button is enabled exactly when a submit would go through. */
  lemma SendButtonMatchesGuard(value: string, isLoading: bool, disabled: bool)
    ensures SendDisabled(value, isLoading, disabled) <==> !CanSubmit(value, isLoading, disabled)
  {
  }

  /** One entry of a recognition result list: its best transcript and
      whether the recogniser has finalised it. */
  datatype SpeechResult = SpeechResult(transcript: string, isFinal: bool)

  /** The results a result event scans: from `resultIndex` to the end. */
  function Scanned(results: seq<SpeechResult>, resultIndex: nat): (rs: seq<SpeechResult>)
    ensures resultIndex <= |results| ==> rs == results[resultIndex..]
    ensures resultIndex > |results| ==> rs == []
  {
    if resultIndex <= |results| then results[resultIndex..] else []
  }

  /** Final transcripts in order, each followed by one space. */
  function FinalText(rs: seq<SpeechResult>): string {
    if rs == [] then ""
    else
      var last := rs[|rs| - 1];
      FinalText(rs[..|rs| - 1]) + (if last.isFinal then last.transcript + " " else "")
  }

  /** Interim transcripts in order, concatenated. */
  function InterimText(rs: seq<SpeechResult>): string {
    if rs == [] then ""
    else
      var last := rs[|rs| - 1];
      InterimText(rs[..|rs| - 1]) + (if last.isFinal then "" else last.transcript)
  }

  /** Scanning two runs of results one after the other gives the texts of
      the first followed by those of the second. */
  lemma {:induction false} TextsAppend(a: seq<SpeechResult>, b: seq<SpeechResult>)
    ensures FinalText(a + b) == FinalText(a) + FinalText(b)
    ensures InterimText(a + b) == InterimText(a) + InterimText(b)
    decreases |b|
  {
    if b == [] {
      assert a + b == a;
    } else {
      var b' := b[..|b| - 1];
      assert (a + b)[..|a + b| - 1] == a + b';
      assert (a + b)[|a + b| - 1] == b[|b| - 1];
      TextsAppend(a, b');
    }
  }

  /** The final text is non-empty exactly when some scanned result is final,
      however empty its transcript. */
  lemma {:induction false} FinalTextPresent(rs: seq<SpeechResult>)
    ensures FinalText(rs) != "" <==> exists k :: 0 <= k < |rs| && rs[k].isFinal
    decreases |rs|
  {
    if rs != [] {
      var init := rs[..|rs| - 1];
      FinalTextPresent(init);
      if exists k :: 0 <= k < |init| && init[k].isFinal {
        var k :| 0 <= k < |init| && init[k].isFinal;
        assert rs[k].isFinal;
      }
      if exists k :: 0 <= k < |rs| && rs[k].isFinal {
        var k :| 0 <= k < |rs| && rs[k].isFinal;
        if k < |init| {
          assert init[k].isFinal;
        }
      }
    }
  }

  /** Without any final result, the interim text is every transcript in
      order. */
  lemma {:induction false} InterimOnly(rs: seq<SpeechResult>)
    requires forall k :: 0 <= k < |rs| ==> !rs[k].isFinal
    ensures FinalText(rs) == ""
    ensures InterimText(rs) == Join(Transcripts(rs), "")
    decreases |rs|
  {
    if rs != [] {
      var init := rs[..|rs| - 1];
      InterimOnly(init);
      JoinEmptyAppend(Transcripts(init), rs[|rs| - 1].transcript);
      assert Transcripts(rs) == Transcripts(init) + [rs[|rs| - 1].transcript];
    }
  }

  function Transcripts(rs: seq<SpeechResult>): (ts: seq<string>)
    ensures |ts| == |rs|
    ensures forall k :: 0 <= k < |rs| ==> ts[k] == rs[k].transcript
  {
    seq(|rs|, k requires 0 <= k < |rs| => rs[k].transcript)
  }

  lemma {:induction false} JoinEmptyAppend(ts: seq<string>, t: string)
    ensures Join(ts + [t], "") == Join(ts, "") + t
    decreases |ts|
  {
    if ts == [] {
      assert ts + [t] == [t];
    } else if |ts| == 1 {
      assert ts + [t] == [ts[0], t];
      assert [ts[0], t][1..] == [t];
    } else {
      assert (ts + [t])[1..] == ts[1..] + [t];
      JoinEmptyAppend(ts[1..], t);
      assert ts[0] + (Join(ts[1..], "") + t) == ts[0] + Join(ts[1..], "") + t;
    }
  }

  lemma ScanOne(rs: seq<SpeechResult>, r: SpeechResult)
    ensures FinalText(rs + [r]) == FinalText(rs) + (if r.isFinal then r.transcript + " " else "")
    ensures InterimText(rs + [r]) == InterimText(rs) + (if r.isFinal then "" else r.transcript)
  {
    assert (rs + [r])[..|rs|] == rs;
  }

  /** The `for` loop of `onresult`: scans the results from `resultIndex`,
      appending final transcripts (each with a trailing space) and interim
      transcripts to separate buffers. */
  method CollectTranscripts(results: seq<SpeechResult>, resultIndex: nat) returns (interim: string, final: string)
    ensures final == FinalText(Scanned(results, resultIndex))
    ensures interim == InterimText(Scanned(results, resultIndex))
  {
    interim := "";
    final := "";
    var i := resultIndex;
    while i < |results|
      invariant resultIndex <= i
      invariant resultIndex <= |results| ==> i <= |results|
      invariant resultIndex <= |results| ==> final == FinalText(results[resultIndex..i])
      invariant resultIndex <= |results| ==> interim == InterimText(results[resultIndex..i])
      invariant resultIndex > |results| ==> final == "" && interim == ""
      decreases |results| - i
    {
      assert results[resultIndex..i + 1] == results[resultIndex..i] + [results[i]];
      ScanOne(results[resultIndex..i], results[i]);
      var r := results[i];
      if r.isFinal {
        final := final + (r.transcript + " ");
      } else {
        interim := interim + r.transcript;
      }
      i := i + 1;
    }
    if resultIndex <= |results| {
      assert results[resultIndex..i] == results[resultIndex..];
    }
  }

  /** The text `base` and `addition` make together: separated by one space,
      or `addition` alone when `base` is empty. */
  function AppendTo(base: string, addition: string): (r: string)
    ensures base == "" ==> r == addition
    ensures base != "" ==> r == base + " " + addition
  {
    if base != "" then base + " " + addition else addition
  }

  /** What the microphone button does. */
  datatype MicAction =
    | NotSupported      // alerts, then calls `onMicClick`
    | Ignored           // loading or disabled: returns at once
    | StopRecognition   // asks the recogniser to stop, then calls `onMicClick`
    | StartRecognition  // asks the recogniser to start, then calls `onMicClick`

  /** `handleMicClick`: the unsupported case first, then the loading and
      disabled guard, then a toggle on the recording flag. */
  function MicActionFor(supported: bool, isRecording: bool, isLoading: bool, disabled: bool): (a: MicAction)
    ensures a == NotSupported <==> !supported
    ensures a == Ignored <==> supported && (isLoading || disabled)
    ensures a == StopRecognition <==> supported && !isLoading && !disabled && isRecording
    ensures a == StartRecognition <==> supported && !isLoading && !disabled && !isRecording
  {
    if !supported then NotSupported
    else if isLoading || disabled then Ignored
    else if isRecording then StopRecognition
    else StartRecognition
  }

  /** The optional `onMicClick` callback runs unless the click was ignored. */
  predicate CallsOnMicClick(a: MicAction) {
    a != Ignored
  }

  /** The alert `onerror` raises for a recognition error code, if any. */
  function ErrorAlert(error: string): (alert: Option<string>)
    ensures alert.Some? <==> error == "audio-capture" || error == "not-allowed"
  {
    if error == "no-speech" then None
    else if error == "audio-capture" then Some("No microphone found. Please check your microphone settings.")
    else if error == "not-allowed" then Some("Microphone permission denied. Please enable microphone access in your browser settings.")
    else None
  }

  /** What a submit attempt hands to the parent and to the recogniser. */
  datatype SubmitOutcome = SubmitOutcome(topic: Option<string>, stopsRecognition: bool)

  class InputBox {
    /** `isSpeechSupported`, fixed when the component mounts. */
    const speechSupported: bool
    var value: string
    var isMultiLine: bool
    var isAnimating: bool
    var isRecording: bool
    /** `finalTranscriptRef.current`: the text recognised so far. */
    var transcriptBase: string
    /** Clearing timeouts scheduled by submits and not yet fired. */
    var pendingClears: nat

    /** The layout flag agrees with the value, as the multi-line effect
        keeps it. */
    ghost predicate Valid()
      reads this
    {
      isMultiLine == ShouldBeMultiLine(value)
    }

    constructor (speechSupported: bool)
      ensures Valid()
      ensures this.speechSupported == speechSupported
      ensures value == "" && transcriptBase == "" && pendingClears == 0
      ensures !isMultiLine && !isAnimating && !isRecording
    {
      this.speechSupported := speechSupported;
      value := "";
      isMultiLine := false;
      isAnimating := false;
      isRecording := false;
      transcriptBase := "";
      pendingClears := 0;
    }

    /** Sets the value and lets the multi-line effect run. */
    method SetValue(v: string)
      modifies this
      ensures Valid()
      ensures value == v && isMultiLine == ShouldBeMultiLine(v)
      ensures isAnimating == old(isAnimating) && isRecording == old(isRecording)
      ensures transcriptBase == old(transcriptBase) && pendingClears == old(pendingClears)
    {
      value := v;
      if ShouldBeMultiLine(v) != isMultiLine {
        isMultiLine := ShouldBeMultiLine(v);
      }
    }

    /** `handleTextChange`: the user edits the text. */
    method HandleTextChange(v: string)
      modifies this
      ensures Valid()
      ensures value == v && isMultiLine == ShouldBeMultiLine(v)
      ensures isAnimating == old(isAnimating) && isRecording == old(isRecording)
      ensures transcriptBase == old(transcriptBase) && pendingClears == old(pendingClears)
    {
      SetValue(v);
    }

    /** `handleSubmit`: when the guard holds, starts the send animation,
        hands the trimmed value to the parent, asks a running recogniser to
        stop and schedules the clearing timeout; otherwise does nothing. */
    method HandleSubmit(isLoading: bool, disabled: bool) returns (out: SubmitOutcome)
      requires Valid()
      modifies this
      ensures Valid()
      ensures value == old(value) && isMultiLine == old(isMultiLine) && isRecording == old(isRecording)
      ensures transcriptBase == old(transcriptBase)
      ensures CanSubmit(value, isLoading, disabled) ==>
                out == SubmitOutcome(Some(Trim(value)), isRecording && speechSupported)
                && isAnimating && pendingClears == old(pendingClears) + 1
      ensures !CanSubmit(value, isLoading, disabled) ==>
                out == SubmitOutcome(None, false)
                && isAnimating == old(isAnimating) && pendingClears == old(pendingClears)
    {
      var trimmed := Trim(value);
      if trimmed != "" && !isLoading && !disabled {
        var stops := isRecording && speechSupported;
        isAnimating := true;
        pendingClears := pendingClears + 1;
        out := SubmitOutcome(Some(trimmed), stops);
      } else {
        out := SubmitOutcome(None, false);
      }
    }

    /** `handleKeyDown`: Enter without Shift submits (and suppresses the
        newline); every other key, Shift+Enter included, is left to the
        textarea. */
    method HandleKeyDown(key: string, shiftKey: bool, isLoading: bool, disabled: bool)
      returns (prevented: bool, out: SubmitOutcome)
      requires Valid()
      modifies this
      ensures Valid()
      ensures prevented <==> key == "Enter" && !shiftKey
      ensures value == old(value) && isMultiLine == old(isMultiLine) && isRecording == old(isRecording)
      ensures transcriptBase == old(transcriptBase)
      ensures prevented && CanSubmit(value, isLoading, disabled) ==>
                out.topic == Some(Trim(value)) && isAnimating && pendingClears == old(pendingClears) + 1
      ensures !(prevented && CanSubmit(value, isLoading, disabled)) ==>
                out == SubmitOutcome(None, false)
                && isAnimating == old(isAnimating) && pendingClears == old(pendingClears)
    {
      prevented := key == "Enter" && !shiftKey;
      if prevented {
        out := HandleSubmit(isLoading, disabled);
      } else {
        out := SubmitOutcome(None, false);
      }
    }

    /** The clearing timeout of a submit fires: the value and the recognised
        text are cleared and the layout returns to one line. */
    method ClearAfterSubmit()
      requires pendingClears > 0
      modifies this
      ensures Valid()
      ensures value == "" && transcriptBase == "" && !isAnimating && !isMultiLine
      ensures isRecording == old(isRecording) && pendingClears == old(pendingClears) - 1
    {
      value := "";
      transcriptBase := "";
      isAnimating := false;
      isMultiLine := false;
      pendingClears := pendingClears - 1;
    }

    /** `handleMicClick`: changes no state of its own; starting or stopping
        takes effect through `OnStart` and `OnEnd`. */
    method HandleMicClick(isLoading: bool, disabled: bool) returns (a: MicAction)
      ensures a == MicActionFor(speechSupported, isRecording, isLoading, disabled)
      ensures a == Ignored <==> speechSupported && (isLoading || disabled)
      ensures CallsOnMicClick(a) <==> !speechSupported || (!isLoading && !disabled)
      ensures a == StartRecognition ==> !isRecording
      ensures a == StopRecognition ==> isRecording
    {
      a := MicActionFor(speechSupported, isRecording, isLoading, disabled);
    }

    /** `recognition.onstart`: recording begins from the current text,
        trimmed (or from nothing when the textarea is not mounted). */
    method OnStart(textareaMounted: bool)
      requires Valid()
      modifies this
      ensures Valid()
      ensures isRecording
      ensures transcriptBase == (if textareaMounted then Trim(value) else "")
      ensures value == old(value) && isMultiLine == old(isMultiLine)
      ensures isAnimating == old(isAnimating) && pendingClears == old(pendingClears)
    {
      isRecording := true;
      if textareaMounted {
        transcriptBase := Trim(value);
      } else {
        transcriptBase := "";
      }
    }

    /** `recognition.onresult`: final text found in this event is trimmed
        and appended to the recognised text, which becomes the value;
        otherwise interim text is shown after the recognised text, which
        stays as it was; an event with neither changes nothing. */
    method OnResult(results: seq<SpeechResult>, resultIndex: nat)
      requires Valid()
      modifies this
      ensures Valid()
      ensures var f := FinalText(Scanned(results, resultIndex));
              f != "" ==> transcriptBase == AppendTo(old(transcriptBase), Trim(f)) && value == transcriptBase
      ensures var f := FinalText(Scanned(results, resultIndex));
              var t := InterimText(Scanned(results, resultIndex));
              f == "" && t != "" ==> transcriptBase == old(transcriptBase) && value == AppendTo(transcriptBase, t)
      ensures var f := FinalText(Scanned(results, resultIndex));
              var t := InterimText(Scanned(results, resultIndex));
              f == "" && t == "" ==> transcriptBase == old(transcriptBase) && value == old(value)
      ensures isRecording == old(isRecording) && isAnimating == old(isAnimating)
      ensures pendingClears == old(pendingClears)
    {
      var interim, final := CollectTranscripts(results, resultIndex);
      if final != "" {
        transcriptBase := AppendTo(transcriptBase, Trim(final));
        SetValue(transcriptBase);
      } else if interim != "" {
        SetValue(AppendTo(transcriptBase, interim));
      }
    }

    /** `recognition.onerror`: recording stops; two error codes also raise
        an alert. */
    method OnError(error: string) returns (alert: Option<string>)
      requires Valid()
      modifies this
      ensures Valid()
      ensures !isRecording && alert == ErrorAlert(error)
      ensures value == old(value) && isMultiLine == old(isMultiLine) && transcriptBase == old(transcriptBase)
      ensures isAnimating == old(isAnimating) && pendingClears == old(pendingClears)
    {
      isRecording := false;
      alert := ErrorAlert(error);
    }

    /** `recognition.onend`: recording stops and the recognised text is kept
        for the next session. */
    method OnEnd()
      requires Valid()
      modifies this
      ensures Valid()
      ensures !isRecording
      ensures value == old(value) && isMultiLine == old(isMultiLine) && transcriptBase == old(transcriptBase)
      ensures isAnimating == old(isAnimating) && pendingClears == old(pendingClears)
    {
      isRecording := false;
    }
  }

  /** Recognising final text twice in a row builds one space-separated text
      from the starting base, as long as each trimmed addition is non-empty. */
  lemma AppendTwice(base: string, a: string, b: string)
    requires a != "" && b != ""
    ensures AppendTo(AppendTo(base, a), b) == AppendTo(base, a + " " + b)
  {
  }
}
