/** `renderMarkdownContent`: the report is split into lines and read once,
    top to bottom, by a parser whose state is the elements emitted so far,
    the pending bullet items, whether a fence is open, the fenced lines and
    the fence's language. Blocks keep their raw text; the inline elements
    of a block are `InlineMarkdown.RenderInline` of that text. */
module MarkdownBlocks {
  import opened Text

  datatype Block =
    | Paragraph(text: string)
    /** `level` leading hashes, rendered as the HTML heading `tag`. */
    | Header(level: nat, tag: nat, text: string)
    | BulletList(items: seq<string>)
    /** A numbered line: an ordered list with this one item. */
    | NumberedItem(text: string)
    | Quote(text: string)
    | CodeBlock(lang: string, code: string)
    | LineBreak

  datatype ParserState = ParserState(
    elements: seq<Block>,
    items: seq<string>,
    inCode: bool,
    codeLines: seq<string>,
    lang: string)

  const Init := ParserState([], [], false, [], "")

  function Emit(st: ParserState, b: Block): ParserState {
    st.(elements := st.elements + [b])
  }

  /** `flushList`: pending bullet items become one list. */
  function ListFlushed(st: ParserState): ParserState {
    if |st.items| > 0 then Emit(st, BulletList(st.items)).(items := []) else st
  }

  /** `flushCodeBlock`: fenced lines become one code element joined with
      newlines; with no lines, nothing happens (the language is kept). */
  function CodeFlushed(st: ParserState): ParserState {
    if |st.codeLines| > 0 then Emit(st, CodeBlock(st.lang, Join(st.codeLines, "\n"))).(codeLines := [], lang := "")
    else st
  }

  function IsDigit(c: char): bool {
    '0' <= c <= '9'
  }

  /** The number of leading characters equal to `c`. */
  function Leading(s: string, c: char): (n: nat)
    ensures n <= |s|
    ensures forall i :: 0 <= i < n ==> s[i] == c
    ensures n < |s| ==> s[n] != c
  {
    if s != [] && s[0] == c then 1 + Leading(s[1..], c) else 0
  }

  /** The number of leading decimal digits. */
  function LeadingDigits(s: string): (n: nat)
    ensures n <= |s|
    ensures forall i :: 0 <= i < n ==> IsDigit(s[i])
    ensures n < |s| ==> !IsDigit(s[n])
  {
    if s != [] && IsDigit(s[0]) then 1 + LeadingDigits(s[1..]) else 0
  }

  /** `/^\d+\.\s/`: digits, a full stop and one whitespace character. */
  predicate IsNumbered(line: string) {
    var d := LeadingDigits(line);
    d >= 1 && d + 1 < |line| && line[d] == '.' && IsSpace(line[d + 1])
  }

  /** `line.startsWith('```')`. */
  predicate IsFence(line: string) {
    |line| >= 3 && line[0] == '`' && line[1] == '`' && line[2] == '`'
  }

  /** `line.startsWith('#')`. */
  predicate IsHeading(line: string) {
    |line| >= 1 && line[0] == '#'
  }

  /** `line.startsWith('- ') || line.startsWith('* ')`. */
  predicate IsBullet(line: string) {
    |line| >= 2 && (line[0] == '-' || line[0] == '*') && line[1] == ' '
  }

  /** `line.startsWith('> ')`. */
  predicate IsQuote(line: string) {
    |line| >= 2 && line[0] == '>' && line[1] == ' '
  }

  function Min(a: nat, b: nat): nat {
    if a <= b then a else b
  }

  /** A line starting with `#`: the level is the number of leading hashes,
      the tag `h(min(level + 2, 6))`, and the text what follows the hashes
      and the whitespace after them. */
  function HeaderOf(line: string): Block {
    var level := Leading(line, '#');
    Header(level, Min(level + 2, 6), TrimStart(line[level..]))
  }

  /** What a line is, by the tests of the `forEach` body in their order
      (a fence is recognised inside a fenced block too; the other kinds
      only outside one). */
  datatype LineKind = FenceLine | BlankLine | HeadingLine | NumberedLine | BulletLine | QuoteLine | TextLine

  function KindOf(line: string): LineKind {
    if IsFence(line) then FenceLine
    else if IsBlank(line) then BlankLine
    else if IsHeading(line) then HeadingLine
    else if IsNumbered(line) then NumberedLine
    else if IsBullet(line) then BulletLine
    else if IsQuote(line) then QuoteLine
    else TextLine
  }

  /** One iteration of the `forEach` over the lines. */
  function Step(st: ParserState, line: string): ParserState {
    var kind := KindOf(line);
    if kind == FenceLine then
      if st.inCode then CodeFlushed(st).(inCode := false)
      else ListFlushed(st).(inCode := true, lang := Trim(line[3..]))
    else if st.inCode then st.(codeLines := st.codeLines + [line])
    else
      match kind
      case BlankLine => Emit(ListFlushed(st), LineBreak)
      case HeadingLine => Emit(ListFlushed(st), HeaderOf(line))
      case NumberedLine =>
        var f := ListFlushed(st);
        if |f.items| == 0 then Emit(f, NumberedItem(line[LeadingDigits(line) + 2..])) else f
      case BulletLine => st.(items := st.items + [line[2..]])
      case QuoteLine => Emit(ListFlushed(st), Quote(line[2..]))
      case TextLine => Emit(ListFlushed(st), Paragraph(line))
  }

  /** The state after reading `lines` in order. */
  function Run(st: ParserState, lines: seq<string>): ParserState {
    if lines == [] then st else Step(Run(st, lines[..|lines| - 1]), lines[|lines| - 1])
  }

  /** The final flushes after the last line. */
  function Finish(st: ParserState): ParserState {
    CodeFlushed(ListFlushed(st))
  }

  function Render(content: string): seq<Block> {
    Finish(Run(Init, Split(content, '\n'))).elements
  }

  /** The local state of `renderMarkdownContent`, with `flushList` and
      `flushCodeBlock` as methods on it. */
  class BlockParser {
    var elements: seq<Block>
    var items: seq<string>
    var inCode: bool
    var codeLines: seq<string>
    var lang: string

    function State(): ParserState
      reads this
    {
      ParserState(elements, items, inCode, codeLines, lang)
    }

    constructor ()
      ensures State() == Init
    {
      elements, items, inCode, codeLines, lang := [], [], false, [], "";
    }

    method FlushList()
      modifies this
      ensures State() == ListFlushed(old(State()))
    {
      if |items| > 0 {
        elements := elements + [BulletList(items)];
        items := [];
      }
    }

    method FlushCodeBlock()
      modifies this
      ensures State() == CodeFlushed(old(State()))
    {
      if |codeLines| > 0 {
        elements := elements + [CodeBlock(lang, Join(codeLines, "\n"))];
        codeLines := [];
        lang := "";
      }
    }

    /** The body of the `forEach` callback for one line. */
    method HandleLine(line: string)
      modifies this
      ensures State() == Step(old(State()), line)
    {
      var kind := KindOf(line);
      if kind == FenceLine {
        if inCode {
          FlushCodeBlock();
          inCode := false;
        } else {
          FlushList();
          inCode := true;
          lang := Trim(line[3..]);
        }
        return;
      }
      if inCode {
        codeLines := codeLines + [line];
        return;
      }
      match kind {
        case BlankLine =>
          FlushList();
          elements := elements + [LineBreak];
        case HeadingLine =>
          FlushList();
          elements := elements + [HeaderOf(line)];
        case NumberedLine =>
          FlushList();
          if |items| == 0 {
            elements := elements + [NumberedItem(line[LeadingDigits(line) + 2..])];
          }
        case BulletLine =>
          items := items + [line[2..]];
        case QuoteLine =>
          FlushList();
          elements := elements + [Quote(line[2..])];
        case TextLine =>
          FlushList();
          elements := elements + [Paragraph(line)];
      }
    }
  }

  /** `renderMarkdownContent(content)`. */
  method RenderMarkdownContent(content: string) returns (elements: seq<Block>)
    ensures elements == Render(content)
  {
    var lines := Split(content, '\n');
    var p := new BlockParser();
    var i := 0;
    while i < |lines|
      invariant 0 <= i <= |lines|
      invariant p.State() == Run(Init, lines[..i])
    {
      p.HandleLine(lines[i]);
      RunNext(lines, i);
      i := i + 1;
    }
    assert lines[..|lines|] == lines;
    p.FlushList();
    p.FlushCodeBlock();
    elements := p.elements;
  }

  // ---------------------------------------------------------------------
  // Properties of the line-by-line reading.

  /** Reading two batches of lines in turn is reading them together. */
  lemma {:induction false} RunAppend(st: ParserState, a: seq<string>, b: seq<string>)
    ensures Run(st, a + b) == Run(Run(st, a), b)
    decreases |b|
  {
    if b == [] {
      assert a + b == a;
    } else {
      assert (a + b)[..|a + b| - 1] == a + b[..|b| - 1];
      RunAppend(st, a, b[..|b| - 1]);
    }
  }

  /** Reading one more line is one more step. */
  lemma RunNext(lines: seq<string>, i: nat)
    requires i < |lines|
    ensures Run(Init, lines[..i + 1]) == Step(Run(Init, lines[..i]), lines[i])
  {
    assert lines[..i + 1][..i] == lines[..i];
  }

  lemma RunOne(st: ParserState, line: string)
    ensures Run(st, [line]) == Step(st, line)
  {
    assert [line][..0] == [];
  }

  /** Pending bullets and fenced lines never coexist: while a fence is open
      there are no pending items, and outside a fence no fenced lines. */
  ghost predicate Wf(st: ParserState) {
    (st.inCode ==> st.items == []) && (!st.inCode ==> st.codeLines == [])
  }

  lemma {:induction false} StepKeepsWf(st: ParserState, line: string)
    requires Wf(st)
    ensures Wf(Step(st, line))
  {
  }

  lemma {:induction false} RunKeepsWf(lines: seq<string>)
    ensures Wf(Run(Init, lines))
  {
    if lines != [] {
      RunKeepsWf(lines[..|lines| - 1]);
      StepKeepsWf(Run(Init, lines[..|lines| - 1]), lines[|lines| - 1]);
    }
  }

  /** A paragraph line: not blank and with no block marker (fence, heading,
      bullet, number or quote). */
  predicate IsPlainLine(line: string) {
    KindOf(line) == TextLine
  }

  /** Outside a fence, a non-blank line with no block marker becomes exactly
      one paragraph holding the line, after any pending list. */
  lemma {:induction false} ParagraphLine(st: ParserState, line: string)
    requires !st.inCode && IsPlainLine(line)
    ensures Step(st, line) == Emit(ListFlushed(st), Paragraph(line))
  {
  }

  /** A report that is one such line renders as that single paragraph. */
  lemma {:induction false} SingleParagraph(line: string)
    requires IsPlainLine(line) && '\n' !in line
    ensures Render(line) == [Paragraph(line)]
  {
    SplitJoin([line], '\n');
    assert Join([line], "\n") == line;
    RunOne(Init, line);
  }

  /** Outside a fence, every non-bullet line first emits the pending items
      as one list; the list is the next element. */
  lemma {:induction false} NonBulletFlushesList(st: ParserState, line: string)
    requires !st.inCode && !IsBullet(line) && st.items != []
    ensures Step(st, line).items == []
    ensures |Step(st, line).elements| > |st.elements|
    ensures Step(st, line).elements[..|st.elements| + 1] == st.elements + [BulletList(st.items)]
  {
    if IsFence(line) {
      FenceOpens(st, line);
    } else if IsBlank(line) {
      BlankLineBreaks(st, line);
      EmitAfterFlush(st, LineBreak);
    } else if IsHeading(line) {
      HeadingStep(st, line);
      EmitAfterFlush(st, HeaderOf(line));
    } else if IsNumbered(line) {
      NumberedLineAlone(st, line);
      EmitAfterFlush(st, NumberedItem(line[LeadingDigits(line) + 2..]));
    } else if IsQuote(line) {
      QuoteStep(st, line);
      EmitAfterFlush(st, Quote(line[2..]));
    } else {
      ParagraphLine(st, line);
      EmitAfterFlush(st, Paragraph(line));
    }
  }

  /** Opening a fence flushes the pending list and emits nothing else. */
  lemma FenceOpens(st: ParserState, line: string)
    requires !st.inCode && IsFence(line) && st.items != []
    ensures Step(st, line).items == []
    ensures Step(st, line).elements == st.elements + [BulletList(st.items)]
    ensures Step(st, line).elements[..|st.elements| + 1] == st.elements + [BulletList(st.items)]
  {
    var lang := Trim(line[3..]);
    assert Step(st, line) == ListFlushed(st).(inCode := true, lang := lang);
    var e := st.elements + [BulletList(st.items)];
    assert e[..|st.elements| + 1] == e;
  }

  /** Outside a fence a quote line becomes one quote, after any pending
      list. */
  lemma QuoteStep(st: ParserState, line: string)
    requires !st.inCode && !IsFence(line) && !IsBlank(line) && !IsHeading(line) && !IsNumbered(line)
    requires !IsBullet(line) && IsQuote(line)
    ensures Step(st, line) == Emit(ListFlushed(st), Quote(line[2..]))
  {
    assert KindOf(line) == QuoteLine;
  }

  lemma EmitAfterFlush(st: ParserState, b: Block)
    requires st.items != []
    ensures Emit(ListFlushed(st), b).items == []
    ensures Emit(ListFlushed(st), b).elements == st.elements + [BulletList(st.items), b]
    ensures Emit(ListFlushed(st), b).elements[..|st.elements| + 1] == st.elements + [BulletList(st.items)]
  {
    var e := st.elements + [BulletList(st.items), b];
    assert e[..|st.elements| + 1] == st.elements + [BulletList(st.items)];
  }

  /** The texts of bullet lines, without their two-character markers. */
  function BulletTexts(lines: seq<string>): (r: seq<string>)
    requires forall k :: 0 <= k < |lines| ==> IsBullet(lines[k])
    ensures |r| == |lines|
  {
    if lines == [] then []
    else
      assert IsBullet(lines[|lines| - 1]);
      BulletTexts(lines[..|lines| - 1]) + [lines[|lines| - 1][2..]]
  }

  /** Outside a fence, consecutive bullet lines only collect their texts. */
  lemma {:induction false} BulletsCollect(st: ParserState, lines: seq<string>)
    requires !st.inCode
    requires forall k :: 0 <= k < |lines| ==> IsBullet(lines[k])
    ensures Run(st, lines) == st.(items := st.items + BulletTexts(lines))
  {
    if lines != [] {
      var init := lines[..|lines| - 1];
      BulletsCollect(st, init);
      assert KindOf(lines[|lines| - 1]) == BulletLine by {
        var l := lines[|lines| - 1];
        assert !IsSpace(l[0]);
      }
    }
  }

  /** A report of bullet lines renders as one list of their texts. */
  lemma {:induction false} BulletListRendered(lines: seq<string>)
    requires lines != []
    requires forall k :: 0 <= k < |lines| ==> IsBullet(lines[k]) && '\n' !in lines[k]
    ensures Render(Join(lines, "\n")) == [BulletList(BulletTexts(lines))]
  {
    SplitJoin(lines, '\n');
    BulletsCollect(Init, lines);
    var texts := BulletTexts(lines);
    assert Run(Init, lines) == Init.(items := texts);
    assert ListFlushed(Init.(items := texts)) == Init.(elements := [BulletList(texts)]);
  }

  /** Inside a fence, lines that do not start with a fence are kept as they
      are and nothing else happens. */
  lemma {:induction false} FencedLinesKept(st: ParserState, lines: seq<string>)
    requires st.inCode
    requires forall k :: 0 <= k < |lines| ==> !IsFence(lines[k])
    ensures Run(st, lines) == st.(codeLines := st.codeLines + lines)
  {
    if lines != [] {
      var init := lines[..|lines| - 1];
      FencedLinesKept(st, init);
      assert lines == init + [lines[|lines| - 1]];
    }
  }

  /** The lines of a report: an opening fence with `info`, the body, and
      optionally a closing fence. */
  function FencedLines(info: string, body: seq<string>, closed: bool): seq<string> {
    ["```" + info] + body + (if closed then ["```"] else [])
  }

  ghost predicate FenceBody(info: string, body: seq<string>) {
    '\n' !in info && forall k :: 0 <= k < |body| ==> '\n' !in body[k] && !IsFence(body[k])
  }

  lemma {:induction false} FencedRun(info: string, body: seq<string>, closed: bool)
    requires FenceBody(info, body)
    ensures Finish(Run(Init, FencedLines(info, body, closed))).elements ==
              if body == [] then [] else [CodeBlock(Trim(info), Join(body, "\n"))]
  {
    var open := "```" + info;
    assert open[3..] == info;
    RunOne(Init, open);
    var s1 := Run(Init, [open]);
    assert s1 == Init.(inCode := true, lang := Trim(info));
    FencedLinesKept(s1, body);
    RunAppend(Init, [open], body);
    var s2 := Run(Init, [open] + body);
    assert s2 == s1.(codeLines := body);
    if closed {
      assert FencedLines(info, body, closed) == ([open] + body) + ["```"];
      RunAppend(Init, [open] + body, ["```"]);
      RunOne(s2, "```");
      assert KindOf("```") == FenceLine;
      assert Step(s2, "```") == CodeFlushed(s2).(inCode := false);
    } else {
      assert FencedLines(info, body, closed) == [open] + body;
    }
  }

  /** A fenced block is emitted verbatim as one code element with the
      trimmed info text as its language; an empty one emits nothing, and
      one never closed is emitted all the same. */
  lemma {:induction false} FencedCode(info: string, body: seq<string>, closed: bool)
    requires FenceBody(info, body)
    ensures Render(Join(FencedLines(info, body, closed), "\n")) ==
              if body == [] then [] else [CodeBlock(Trim(info), Join(body, "\n"))]
  {
    var lines := FencedLines(info, body, closed);
    assert forall k :: 0 <= k < |lines| ==> '\n' !in lines[k] by {
      forall k | 0 <= k < |lines| ensures '\n' !in lines[k] {
        if k == 0 {
          assert lines[0] == "```" + info;
        } else if k <= |body| {
          assert lines[k] == body[k - 1];
        } else {
          assert lines[k] == "```";
        }
      }
    }
    SplitJoin(lines, '\n');
    FencedRun(info, body, closed);
  }

  /** Outside a fence a whitespace-only line flushes the pending list and
      then emits exactly one line break. */
  lemma {:induction false} BlankLineBreaks(st: ParserState, line: string)
    requires !st.inCode && IsBlank(line)
    ensures Step(st, line) == Emit(ListFlushed(st), LineBreak)
  {
    assert KindOf(line) == BlankLine;
  }

  /** Outside a fence every numbered line is its own one-item ordered list,
      after any pending list. */
  lemma {:induction false} NumberedLineAlone(st: ParserState, line: string)
    requires !st.inCode && IsNumbered(line)
    ensures Step(st, line) == Emit(ListFlushed(st), NumberedItem(line[LeadingDigits(line) + 2..]))
  {
    assert IsDigit(line[0]);
  }

  function Repeat(c: char, n: nat): (r: string)
    ensures |r| == n && forall i :: 0 <= i < n ==> r[i] == c
  {
    seq(n, i => c)
  }

  /** `n` leading hashes give level `n`, tag `h(min(n + 2, 6))`, and the text
      after the hashes with its leading whitespace removed. */
  lemma {:induction false} HeaderLevels(n: nat, rest: string)
    requires n >= 1 && (rest == [] || rest[0] != '#')
    ensures HeaderOf(Repeat('#', n) + rest) == Header(n, Min(n + 2, 6), TrimStart(rest))
  {
    var line := Repeat('#', n) + rest;
    var l := Leading(line, '#');
    assert forall i :: 0 <= i < n ==> line[i] == '#';
    if |rest| > 0 { assert line[n] == rest[0]; }
    assert l == n;
    assert line[n..] == rest;
  }

  lemma RunThree(st: ParserState, a: string, b: string, c: string)
    ensures Run(st, [a, b, c]) == Step(Step(Step(st, a), b), c)
  {
    var l3, l2, l1 := [a, b, c], [a, b], [a];
    assert l3[..2] == l2 && l3[2] == c;
    assert Run(st, l3) == Step(Run(st, l2), c);
    assert l2[..1] == l1 && l2[1] == b;
    assert Run(st, l2) == Step(Run(st, l1), b);
    RunOne(st, a);
  }

  /** A heading, a blank line and a paragraph give exactly those three
      elements. */
  lemma {:induction false} HeadingBlankParagraph(h: string, p: string)
    requires IsHeading(h) && KindOf(p) == TextLine && '\n' !in h && '\n' !in p
    ensures Render(Join([h, "", p], "\n")) == [HeaderOf(h), LineBreak, Paragraph(p)]
  {
    SplitJoin([h, "", p], '\n');
    var s1 := Init.(elements := [HeaderOf(h)]);
    var s2 := Init.(elements := [HeaderOf(h), LineBreak]);
    var s3 := Init.(elements := [HeaderOf(h), LineBreak, Paragraph(p)]);
    FirstHeading(h);
    BreakAfter(HeaderOf(h));
    ParagraphAfter(HeaderOf(h), LineBreak, p);
    calc {
      Run(Init, [h, "", p]);
    ==  { RunThree(Init, h, "", p); }
      Step(Step(Step(Init, h), ""), p);
    ==
      Step(Step(s1, ""), p);
    ==
      Step(s2, p);
    ==
      s3;
    }
    assert Finish(s3) == s3;
  }

  lemma ParagraphAfter(x: Block, y: Block, p: string)
    requires KindOf(p) == TextLine
    ensures Step(Init.(elements := [x, y]), p) == Init.(elements := [x, y, Paragraph(p)])
  {
    ParagraphLine(Init.(elements := [x, y]), p);
  }

  lemma FirstHeading(h: string)
    requires IsHeading(h)
    ensures Step(Init, h) == Init.(elements := [HeaderOf(h)])
  {
    HeadingStep(Init, h);
    EmitOnInit(HeaderOf(h));
  }

  lemma EmitOnInit(b: Block)
    ensures Emit(ListFlushed(Init), b) == Init.(elements := [b])
  {
  }

  lemma BreakAfter(x: Block)
    ensures Step(Init.(elements := [x]), "") == Init.(elements := [x, LineBreak])
  {
    assert IsBlank("");
    BlankLineBreaks(Init.(elements := [x]), "");
  }

  /** A single `#` and a space give a level-1 header shown as `h3`. */
  lemma OneHashHeader(t: string)
    requires t != [] ==> !IsSpace(t[0])
    ensures HeaderOf("# " + t) == Header(1, 3, t)
  {
    var line := "# " + t;
    assert line[1..] == " " + t;
    assert Leading(line[1..], '#') == 0;
    assert Leading(line, '#') == 1;
    SpaceThenText(t);
  }

  lemma SpaceThenText(t: string)
    requires t != [] ==> !IsSpace(t[0])
    ensures TrimStart(" " + t) == t
  {
    var s := " " + t;
    assert s[1..] == t;
    assert TrimStart(s) == TrimStart(t);
  }

  /** Outside a fence a line starting with `#` becomes one heading, after
      any pending list. */
  lemma {:induction false} HeadingStep(st: ParserState, line: string)
    requires !st.inCode && IsHeading(line)
    ensures Step(st, line) == Emit(ListFlushed(st), HeaderOf(line))
  {
    assert !IsSpace(line[0]);
    assert KindOf(line) == HeadingLine;
  }

}

/** The file name offered when the report is downloaded. */
module ReportDownload {
  import opened Text

  predicate IsAsciiAlnum(c: char) {
    'a' <= c <= 'z' || 'A' <= c <= 'Z' || '0' <= c <= '9'
  }

  /** `topic.replace(/[^a-z0-9]/gi, '-').toLowerCase()`. */
  function Slug(topic: string): (r: string)
    ensures |r| == |topic|
    ensures forall i :: 0 <= i < |topic| ==> r[i] == if IsAsciiAlnum(topic[i]) then LowerChar(topic[i]) else '-'
  {
    ToLower(seq(|topic|, i requires 0 <= i < |topic| => if IsAsciiAlnum(topic[i]) then topic[i] else '-'))
  }

  /** The name of the downloaded text file for a topic and the formatted
      completion date. */
  function ReportFileName(topic: string, date: string): string {
    "research-report-" + Slug(topic) + "-" + date + ".txt"
  }

  /** The slug holds only lower-case letters, digits and hyphens, and
      slugging it again changes nothing. */
  lemma SlugIsNormal(topic: string)
    ensures forall i :: 0 <= i < |Slug(topic)| ==> 'a' <= Slug(topic)[i] <= 'z' || '0' <= Slug(topic)[i] <= '9' || Slug(topic)[i] == '-'
    ensures Slug(Slug(topic)) == Slug(topic)
  {
  }
}
