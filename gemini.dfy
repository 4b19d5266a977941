/** The pure steps of the Gemini service around its network calls: the
    filtering of search-grounding chunks and the default summary of a
    research call, the clean-up of text sent to speech synthesis, the
    stripping of a data-URL header from an image, and the fallback of the
    suggestion call. The calls themselves are parameters. */
module GeminiHelpers {
  import opened Wrappers
  import opened Text

  /** The `web` part of a raw grounding chunk, whose fields may be absent. */
  datatype WebRef = WebRef(uri: Option<string>, title: Option<string>)
  datatype RawChunk = RawChunk(web: Option<WebRef>)

  /** A grounding chunk as the application keeps it: a link and its title. */
  datatype GroundingChunk = GroundingChunk(uri: string, title: string)

  datatype ResearchSummary = ResearchSummary(summary: string, groundingChunks: seq<GroundingChunk>, rawText: string)

  /** A chunk is kept when its `web` part has a non-empty link and a
      non-empty title. */
  predicate Usable(c: RawChunk) {
    c.web.Some? && c.web.value.uri.Some? && c.web.value.uri.value != ""
    && c.web.value.title.Some? && c.web.value.title.value != ""
  }

  /** The `map` step: a usable chunk reduced to its link and title, or
      `null`. */
  function MapChunk(c: RawChunk): (r: Option<GroundingChunk>)
    ensures r.Some? <==> Usable(c)
    ensures r.Some? ==> r.value.uri == c.web.value.uri.value && r.value.title == c.web.value.title.value
  {
    if Usable(c) then Some(GroundingChunk(c.web.value.uri.value, c.web.value.title.value)) else None
  }

  /** The `map` and `filter` over the raw chunks, in order. */
  function KeptChunks(raw: seq<RawChunk>): (r: seq<GroundingChunk>)
    ensures |r| <= |raw|
    ensures forall k :: 0 <= k < |r| ==> r[k].uri != "" && r[k].title != ""
  {
    if raw == [] then []
    else
      var m := MapChunk(raw[|raw| - 1]);
      KeptChunks(raw[..|raw| - 1]) + (if m.Some? then [m.value] else [])
  }

  /** Filtering two runs of chunks keeps the chunks of the first, then
      those of the second. */
  lemma {:induction false} KeptAppend(a: seq<RawChunk>, b: seq<RawChunk>)
    ensures KeptChunks(a + b) == KeptChunks(a) + KeptChunks(b)
    decreases |b|
  {
    if b == [] {
      assert a + b == a;
    } else {
      var b' := b[..|b| - 1];
      assert (a + b)[..|a + b| - 1] == a + b';
      assert (a + b)[|a + b| - 1] == b[|b| - 1];
      KeptAppend(a, b');
    }
  }

  /** Every usable chunk is kept, and every kept chunk comes from a usable
      one with the same link and title. */
  lemma {:induction false} KeptExactly(raw: seq<RawChunk>)
    ensures forall k :: 0 <= k < |raw| && Usable(raw[k]) ==> MapChunk(raw[k]).value in KeptChunks(raw)
    ensures forall g :: g in KeptChunks(raw) ==> exists k :: 0 <= k < |raw| && MapChunk(raw[k]) == Some(g)
    decreases |raw|
  {
    if raw != [] {
      var init := raw[..|raw| - 1];
      var last := raw[|raw| - 1];
      KeptExactly(init);
      assert raw == init + [last];
      KeptAppend(init, [last]);
      assert KeptChunks([last]) == (if MapChunk(last).Some? then [MapChunk(last).value] else []) by {
        assert [last][..0] == [];
      }
      forall g | g in KeptChunks(raw)
        ensures exists k :: 0 <= k < |raw| && MapChunk(raw[k]) == Some(g)
      {
        if g in KeptChunks(init) {
          var k :| 0 <= k < |init| && MapChunk(init[k]) == Some(g);
          assert raw[k] == init[k];
        } else {
          assert MapChunk(raw[|raw| - 1]) == Some(g);
        }
      }
      forall k | 0 <= k < |raw| && Usable(raw[k])
        ensures MapChunk(raw[k]).value in KeptChunks(raw)
      {
        if k < |init| {
          assert raw[k] == init[k];
        }
      }
    }
  }

  /** A list of usable chunks is kept whole; a list with none usable is
      dropped. */
  lemma {:induction false} KeptAllOrNone(raw: seq<RawChunk>)
    ensures (forall k :: 0 <= k < |raw| ==> Usable(raw[k])) ==> |KeptChunks(raw)| == |raw|
    ensures (forall k :: 0 <= k < |raw| ==> !Usable(raw[k])) ==> KeptChunks(raw) == []
    decreases |raw|
  {
    if raw != [] {
      var init := raw[..|raw| - 1];
      KeptAllOrNone(init);
    }
  }

  const NoResult := "No result generated."

  /** The result of `performResearch`: the response text (or the default
      when it is missing or empty) as both summary and raw text, and the
      kept grounding chunks of the first candidate (none when absent). */
  function ResearchSummaryOf(text: Option<string>, rawChunks: Option<seq<RawChunk>>): (r: ResearchSummary)
    ensures r.summary == r.rawText && r.summary != ""
    ensures text.Some? && text.value != "" ==> r.summary == text.value
    ensures text.None? || text.value == "" ==> r.summary == NoResult
    ensures rawChunks.None? ==> r.groundingChunks == []
    ensures rawChunks.Some? ==> r.groundingChunks == KeptChunks(rawChunks.value)
  {
    var summary := if text.Some? && text.value != "" then text.value else NoResult;
    ResearchSummary(summary, KeptChunks(rawChunks.GetOr([])), summary)
  }

  /** The Markdown characters removed before speech synthesis. */
  predicate IsMarkup(c: char) {
    c == '#' || c == '*' || c == '`' || c == '_'
  }

  /** `replace(/[#*`_]/g, '')`. */
  function StripMarkup(s: string): (r: string)
    ensures |r| <= |s|
    ensures forall i :: 0 <= i < |r| ==> !IsMarkup(r[i])
  {
    if s == [] then []
    else (if IsMarkup(s[0]) then [] else [s[0]]) + StripMarkup(s[1..])
  }

  /** Text without Markdown characters is left as it is. */
  lemma {:induction false} StripMarkupKeepsPlain(s: string)
    requires forall i :: 0 <= i < |s| ==> !IsMarkup(s[i])
    ensures StripMarkup(s) == s
  {
    if s != [] {
      StripMarkupKeepsPlain(s[1..]);
    }
  }

  /** Stripping works piece by piece: the kept characters keep their order. */
  lemma {:induction false} StripMarkupAppend(a: string, b: string)
    ensures StripMarkup(a + b) == StripMarkup(a) + StripMarkup(b)
  {
    if a == [] {
      assert a + b == b;
    } else {
      assert (a + b)[1..] == a[1..] + b;
      StripMarkupAppend(a[1..], b);
    }
  }

  /** Speech input is capped at this many characters. */
  const SpeechLimit: nat := 4000

  /** The text sent to speech synthesis: Markdown characters removed, then
      cut to the first 4000 characters. */
  function CleanText(text: string): (r: string)
    ensures |r| <= SpeechLimit
    ensures forall i :: 0 <= i < |r| ==> !IsMarkup(r[i])
    ensures StartsWith(StripMarkup(text), r)
    ensures |StripMarkup(text)| <= SpeechLimit ==> r == StripMarkup(text)
    ensures |StripMarkup(text)| > SpeechLimit ==> |r| == SpeechLimit
  {
    var s := StripMarkup(text);
    if |s| <= SpeechLimit then s else s[..SpeechLimit]
  }

  /** Cleaning cleaned text changes nothing. */
  lemma CleanTextIdempotent(text: string)
    ensures CleanText(CleanText(text)) == CleanText(text)
  {
    StripMarkupKeepsPlain(CleanText(text));
  }

  /** `base64Image.split(',')[1] || base64Image`. */
  function CleanBase64(image: string): (r: string)
    ensures r == image || (r != "" && ',' !in r)
  {
    var parts := Split(image, ',');
    if |parts| >= 2 && parts[1] != "" then parts[1] else image
  }

  /** The first part of a split is the text before the first separator. */
  lemma SplitHead(s: string, sep: char)
    ensures Split(s, sep)[0] == s[..IndexOf(s, sep)]
  {
  }

  /** With a comma, the cleaned image is the text between the first comma
      and the next one (or the end), unless that is empty; without a comma
      it is the input. */
  lemma CleanBase64Segment(image: string)
    ensures var i := IndexOf(image, ',');
            i < |image| ==>
              var after := image[i + 1..];
              var j := IndexOf(after, ',');
              CleanBase64(image) == if j > 0 then after[..j] else image
    ensures IndexOf(image, ',') == |image| ==> CleanBase64(image) == image
  {
    var i := IndexOf(image, ',');
    if i < |image| {
      SplitHead(image[i + 1..], ',');
    }
  }

  /** A data URL `header,payload` gives its payload. */
  lemma DataUrlPayload(header: string, payload: string)
    requires ',' !in header && ',' !in payload && payload != ""
    ensures CleanBase64(header + "," + payload) == payload
  {
    SplitJoin([header, payload], ',');
    assert Join([header, payload], [',']) == header + "," + payload by {
      assert [header, payload][1..] == [payload];
    }
  }

  /** Plain base64 without a header is passed through. */
  lemma PlainBase64Unchanged(image: string)
    requires ',' !in image
    ensures CleanBase64(image) == image
  {
    assert image[..|image|] == image;
  }

  /** `getSearchSuggestions`: the parsed response text, or the empty list
      when the call fails, the text is missing or empty, or it does not
      parse (`parse` stands for `JSON.parse` read as a list of strings). */
  function Suggestions(call: Result<Option<string>, string>, parse: string -> Option<seq<string>>): (r: seq<string>)
    ensures call.Err? ==> r == []
    ensures call.Ok? && (call.value.None? || call.value.value == "") ==> r == []
    ensures r != [] ==> call.Ok? && call.value.Some? && parse(call.value.value) == Some(r)
    ensures call.Ok? && call.value.Some? && call.value.value != "" && parse(call.value.value).Some? ==>
              r == parse(call.value.value).value
    ensures call.Ok? && call.value.Some? && parse(call.value.value).None? ==> r == []
  {
    match call
    case Err(_) => []
    case Ok(None) => []
    case Ok(Some(text)) =>
      if text == "" then []
      else match parse(text)
        case None => []
        case Some(list) => list
  }
}
