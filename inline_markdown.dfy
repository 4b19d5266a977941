/** `renderInlineMarkdown`: four global replace passes (inline code, bold,
    italic, links), each a left-to-right scan that swaps every delimited
    span for a numbered placeholder, followed by a split of the text at the
    placeholders.

    The text between passes is a sequence of pieces: a character, or a
    placeholder slot carrying its number and the span it stands for. A
    placeholder's own text (`__CODE_0__` and so on) holds none of the
    characters the patterns look for, so a slot behaves in later passes
    like a run of ordinary characters; it is one piece here. A span keeps
    its content as pieces, so a placeholder captured inside a later span
    stays visible there as its placeholder text (`PieceDisplay`). */
module InlineMarkdown {
  import opened Wrappers
  import opened Text

  datatype Span =
    | Code(code: seq<Piece>)
    | Bold(inner: seq<Piece>)
    | Italic(inner: seq<Piece>)
    | Link(linkText: seq<Piece>, url: seq<Piece>)

  datatype Piece = Ch(c: char) | Slot(index: nat, span: Span)

  /** One element of the rendered output: a text part or a formatted
      element, with the number its placeholder had. */
  datatype Inline = Plain(text: string) | Styled(index: nat, span: Span)

  /** The four passes, in the order they run. */
  datatype Pass = CodePass | BoldPass | ItalicPass | LinkPass

  predicate IsCh(p: Piece, c: char) {
    p.Ch? && p.c == c
  }

  predicate AllChars(ps: seq<Piece>) {
    forall k :: 0 <= k < |ps| ==> ps[k].Ch?
  }

  /** Every code span, at any depth, holds characters only. */
  predicate CodeIsText(ps: seq<Piece>)
    decreases ps
  {
    forall k :: 0 <= k < |ps| ==> PieceCodeIsText(ps[k])
  }

  predicate PieceCodeIsText(p: Piece)
    decreases p
  {
    match p
    case Ch(_) => true
    case Slot(_, sp) => SpanCodeIsText(sp)
  }

  predicate SpanCodeIsText(sp: Span)
    decreases sp
  {
    match sp
    case Code(x) => AllChars(x)
    case Bold(x) => CodeIsText(x)
    case Italic(x) => CodeIsText(x)
    case Link(l, u) => CodeIsText(l) && CodeIsText(u)
  }

  /** The text as pieces, one character each. */
  function Chars(s: string): (ps: seq<Piece>)
    ensures |ps| == |s|
    ensures forall i :: 0 <= i < |s| ==> ps[i] == Ch(s[i])
  {
    seq(|s|, i requires 0 <= i < |s| => Ch(s[i]))
  }

  /** The first index at or after `from` holding the character `c`, or the
      length when there is none. */
  function Find(ps: seq<Piece>, from: nat, c: char): (j: nat)
    requires from <= |ps|
    ensures from <= j <= |ps|
    ensures j < |ps| ==> IsCh(ps[j], c)
    ensures forall k :: from <= k < j ==> !IsCh(ps[k], c)
    decreases |ps| - from
  {
    if from == |ps| then from
    else if IsCh(ps[from], c) then from
    else Find(ps, from + 1, c)
  }

  /** `c([^c]+)c` occupies `[i, e)`: the delimiter, a non-empty group free
      of it, and the delimiter again. */
  predicate SingleSpanAt(ps: seq<Piece>, i: nat, e: nat, c: char) {
    && i + 3 <= e <= |ps|
    && IsCh(ps[i], c) && IsCh(ps[e - 1], c)
    && forall k :: i < k < e - 1 ==> !IsCh(ps[k], c)
  }

  /** `\*\*([^*]+)\*\*` occupies `[i, e)`. */
  predicate BoldSpanAt(ps: seq<Piece>, i: nat, e: nat) {
    && i + 5 <= e <= |ps|
    && IsCh(ps[i], '*') && IsCh(ps[i + 1], '*') && IsCh(ps[e - 2], '*') && IsCh(ps[e - 1], '*')
    && forall k :: i + 1 < k < e - 2 ==> !IsCh(ps[k], '*')
  }

  /** `\[([^\]]+)\]\(([^)]+)\)` occupies `[i, e)`, with the `]` at `j`. */
  predicate LinkSpanAt(ps: seq<Piece>, i: nat, j: nat, e: nat) {
    && i + 2 <= j && j + 4 <= e <= |ps|
    && IsCh(ps[i], '[') && IsCh(ps[j], ']') && IsCh(ps[j + 1], '(') && IsCh(ps[e - 1], ')')
    && (forall k :: i < k < j ==> !IsCh(ps[k], ']'))
    && (forall k :: j + 1 < k < e - 1 ==> !IsCh(ps[k], ')'))
  }

  /** The pass's pattern occupies `[i, e)` and `sp` is the span its groups
      capture. */
  predicate SpanMatches(pass: Pass, ps: seq<Piece>, i: nat, sp: Span, e: nat) {
    match pass
    case CodePass => SingleSpanAt(ps, i, e, '`') && sp == Code(ps[i + 1..e - 1])
    case BoldPass => BoldSpanAt(ps, i, e) && sp == Bold(ps[i + 2..e - 2])
    case ItalicPass => SingleSpanAt(ps, i, e, '*') && sp == Italic(ps[i + 1..e - 1])
    case LinkPass =>
      && sp.Link?
      && LinkSpanAt(ps, i, i + 1 + |sp.linkText|, e)
      && sp == Link(ps[i + 1..i + 1 + |sp.linkText|], ps[i + 3 + |sp.linkText|..e - 1])
  }

  /** Where a single-delimiter pattern starting at `i` ends: one past the
      first delimiter after the opening one, provided the group between is
      non-empty. */
  function SingleClose(ps: seq<Piece>, i: nat, c: char): (e: Option<nat>)
    requires i < |ps|
    ensures e.Some? ==> SingleSpanAt(ps, i, e.value, c)
    ensures forall e': nat :: SingleSpanAt(ps, i, e', c) ==> e == Some(e')
  {
    if !IsCh(ps[i], c) then None
    else
      var j := Find(ps, i + 1, c);
      if j < |ps| && j >= i + 2 then Some(j + 1) else None
  }

  /** Where the bold pattern starting at `i` ends. */
  function BoldClose(ps: seq<Piece>, i: nat): (e: Option<nat>)
    requires i < |ps|
    ensures e.Some? ==> BoldSpanAt(ps, i, e.value)
    ensures forall e': nat :: BoldSpanAt(ps, i, e') ==> e == Some(e')
  {
    if i + 1 >= |ps| || !IsCh(ps[i], '*') || !IsCh(ps[i + 1], '*') then None
    else
      var j := Find(ps, i + 2, '*');
      if j >= i + 3 && j + 1 < |ps| && IsCh(ps[j + 1], '*') then Some(j + 2) else None
  }

  /** Where the link pattern starting at `i` has its `]` and where it ends. */
  function LinkClose(ps: seq<Piece>, i: nat): (r: Option<(nat, nat)>)
    requires i < |ps|
    ensures r.Some? ==> LinkSpanAt(ps, i, r.value.0, r.value.1)
    ensures forall j: nat, e: nat :: LinkSpanAt(ps, i, j, e) ==> r == Some((j, e))
  {
    if !IsCh(ps[i], '[') then None
    else
      var j := Find(ps, i + 1, ']');
      if j >= i + 2 && j + 1 < |ps| && IsCh(ps[j + 1], '(') then
        var k := Find(ps, j + 2, ')');
        if k >= j + 3 && k < |ps| then Some((j, k + 1)) else None
      else None
  }

  /** The match of a pass's pattern starting at position `i`, with the
      position just after it:
      code   `` `([^`]+)` ``,
      bold   `\*\*([^*]+)\*\*`,
      italic `\*([^*]+)\*`,
      link   `\[([^\]]+)\]\(([^)]+)\)`.
      `MatchAtFinds` shows it agrees with the patterns. */
  function MatchAt(pass: Pass, ps: seq<Piece>, i: nat): (m: Option<(Span, nat)>)
    requires i < |ps|
    ensures m.Some? ==> i < m.value.1 <= |ps|
  {
    match pass
    case CodePass =>
      (match SingleClose(ps, i, '`')
       case None => None
       case Some(e) => Some((Code(ps[i + 1..e - 1]), e)))
    case BoldPass =>
      (match BoldClose(ps, i)
       case None => None
       case Some(e) => Some((Bold(ps[i + 2..e - 2]), e)))
    case ItalicPass =>
      (match SingleClose(ps, i, '*')
       case None => None
       case Some(e) => Some((Italic(ps[i + 1..e - 1]), e)))
    case LinkPass =>
      match LinkClose(ps, i)
      case None => None
      case Some((j, e)) =>
        Some((Link(ps[i + 1..j], ps[j + 2..e - 1]), e))
  }

  /** A match is found exactly when the pass's pattern occupies some
      `[i, e)`, and then it is that one: each group is non-empty and runs to
      the first closing delimiter. */
  lemma MatchAtFinds(pass: Pass, ps: seq<Piece>, i: nat)
    requires i < |ps|
    ensures MatchAt(pass, ps, i).Some? ==>
              SpanMatches(pass, ps, i, MatchAt(pass, ps, i).value.0, MatchAt(pass, ps, i).value.1)
    ensures forall sp, e: nat :: SpanMatches(pass, ps, i, sp, e) ==> MatchAt(pass, ps, i) == Some((sp, e))
  {
    match pass {
      case CodePass => SingleMatchFinds(CodePass, ps, i, '`');
      case BoldPass => BoldMatchFinds(ps, i);
      case ItalicPass => SingleMatchFinds(ItalicPass, ps, i, '*');
      case LinkPass => LinkMatchFinds(ps, i);
    }
  }

  lemma SingleMatchFinds(pass: Pass, ps: seq<Piece>, i: nat, c: char)
    requires i < |ps|
    requires (pass == CodePass && c == '`') || (pass == ItalicPass && c == '*')
    ensures MatchAt(pass, ps, i).Some? ==>
              SpanMatches(pass, ps, i, MatchAt(pass, ps, i).value.0, MatchAt(pass, ps, i).value.1)
    ensures forall sp, e: nat :: SpanMatches(pass, ps, i, sp, e) ==> MatchAt(pass, ps, i) == Some((sp, e))
  {
    var r := SingleClose(ps, i, c);
    assert MatchAt(pass, ps, i).None? <==> r.None?;
  }

  lemma BoldMatchFinds(ps: seq<Piece>, i: nat)
    requires i < |ps|
    ensures MatchAt(BoldPass, ps, i).Some? ==>
              SpanMatches(BoldPass, ps, i, MatchAt(BoldPass, ps, i).value.0, MatchAt(BoldPass, ps, i).value.1)
    ensures forall sp, e: nat :: SpanMatches(BoldPass, ps, i, sp, e) ==> MatchAt(BoldPass, ps, i) == Some((sp, e))
  {
    var r := BoldClose(ps, i);
    assert MatchAt(BoldPass, ps, i).None? <==> r.None?;
  }

  lemma LinkMatchFinds(ps: seq<Piece>, i: nat)
    requires i < |ps|
    ensures MatchAt(LinkPass, ps, i).Some? ==>
              SpanMatches(LinkPass, ps, i, MatchAt(LinkPass, ps, i).value.0, MatchAt(LinkPass, ps, i).value.1)
    ensures forall sp, e: nat :: SpanMatches(LinkPass, ps, i, sp, e) ==> MatchAt(LinkPass, ps, i) == Some((sp, e))
  {
    var r := LinkClose(ps, i);
    if r.Some? {
      var j := r.value.0;
      assert j == i + 1 + |ps[i + 1..j]|;
    }
  }

  /** A global replace from position `i`, numbering placeholders from
      `next`: a match is replaced by a slot and the scan resumes after it;
      otherwise the piece is kept and the scan moves one piece on. Returns
      the new pieces and the next free number. */
  function Replace(pass: Pass, ps: seq<Piece>, i: nat, next: nat): (r: (seq<Piece>, nat))
    requires i <= |ps|
    ensures r.1 >= next
    decreases |ps| - i
  {
    if i == |ps| then ([], next)
    else
      match MatchAt(pass, ps, i)
      case Some((sp, e)) =>
        var rest := Replace(pass, ps, e, next + 1);
        ([Slot(next, sp)] + rest.0, rest.1)
      case None =>
        var rest := Replace(pass, ps, i + 1, next);
        ([ps[i]] + rest.0, rest.1)
  }

  /** The scan is leftmost-first: every piece before the first position at
      which the pattern matches is kept as it is, and numbering resumes
      there (`ReplaceTakesMatch` turns that match into the next slot). */
  lemma {:induction false} ReplaceLeftmost(pass: Pass, ps: seq<Piece>, i: nat, j: nat, next: nat)
    requires i <= j <= |ps|
    requires forall k :: i <= k < j ==> MatchAt(pass, ps, k).None?
    ensures Replace(pass, ps, i, next).0 == ps[i..j] + Replace(pass, ps, j, next).0
    ensures Replace(pass, ps, i, next).1 == Replace(pass, ps, j, next).1
    decreases j - i
  {
    if i < j {
      ReplaceLeftmost(pass, ps, i + 1, j, next);
      ReplaceKeepsPiece(pass, ps, i, next);
      ConsSlice(ps, i, j, Replace(pass, ps, j, next).0);
    } else {
      assert ps[i..j] == [];
    }
  }

  lemma ConsSlice(ps: seq<Piece>, i: nat, j: nat, tail: seq<Piece>)
    requires i < j <= |ps|
    ensures [ps[i]] + (ps[i + 1..j] + tail) == ps[i..j] + tail
  {
    assert ps[i..j] == [ps[i]] + ps[i + 1..j];
  }

  /** One step of the scan at a position where the pattern matches. */
  lemma ReplaceTakesMatch(pass: Pass, ps: seq<Piece>, i: nat, next: nat)
    requires i < |ps| && MatchAt(pass, ps, i).Some?
    ensures var m := MatchAt(pass, ps, i).value;
            var rest := Replace(pass, ps, m.1, next + 1);
            Replace(pass, ps, i, next) == ([Slot(next, m.0)] + rest.0, rest.1)
  {
  }

  /** One step of the scan at a position where the pattern does not match. */
  lemma ReplaceKeepsPiece(pass: Pass, ps: seq<Piece>, i: nat, next: nat)
    requires i < |ps| && MatchAt(pass, ps, i).None?
    ensures Replace(pass, ps, i, next) ==
              ([ps[i]] + Replace(pass, ps, i + 1, next).0, Replace(pass, ps, i + 1, next).1)
  {
  }

  /** The pieces after all four passes, numbered from 0 in the order the
      spans were found. */
  function Substituted(text: string): seq<Piece> {
    var a := Replace(CodePass, Chars(text), 0, 0);
    var b := Replace(BoldPass, a.0, 0, a.1);
    var c := Replace(ItalicPass, b.0, 0, b.1);
    Replace(LinkPass, c.0, 0, c.1).0
  }

  /** The split at the placeholders: consecutive characters form one text
      part (`run` holds the characters already collected), a slot its own
      element, and empty text parts are dropped. */
  function Group(ps: seq<Piece>, run: string): seq<Inline> {
    if ps == [] then (if run == "" then [] else [Plain(run)])
    else
      match ps[0]
      case Ch(c) => Group(ps[1..], run + [c])
      case Slot(n, sp) => (if run == "" then [] else [Plain(run)]) + [Styled(n, sp)] + Group(ps[1..], "")
  }

  /** The rendered elements; the text itself when the split yields none. */
  function RenderInline(text: string): seq<Inline> {
    var g := Group(Substituted(text), "");
    if g == [] then [Plain(text)] else g
  }

  /** `renderInlineMarkdown(text)`: the passes, then the loop over the
      split parts. Text that already holds `__` could collide with the
      placeholders and is excluded. */
  method RenderInlineMarkdown(text: string) returns (result: seq<Inline>)
    requires !Contains(text, "__")
    ensures result == RenderInline(text)
    ensures result != []
    ensures Unparsed(result) == text
  {
    var r := Replace(CodePass, Chars(text), 0, 0);
    r := Replace(BoldPass, r.0, 0, r.1);
    r := Replace(ItalicPass, r.0, 0, r.1);
    r := Replace(LinkPass, r.0, 0, r.1);
    result := SplitAtPlaceholders(r.0);
    RenderInlineUnparses(text);
    if result == [] {
      result := [Plain(text)];
    }
  }

  /** The split of the substituted text and the loop that collects its
      parts: runs of characters become text parts, slots their elements. */
  method SplitAtPlaceholders(ps: seq<Piece>) returns (result: seq<Inline>)
    ensures result == Group(ps, "")
  {
    result := [];
    var run := "";
    var i := 0;
    while i < |ps|
      invariant 0 <= i <= |ps|
      invariant result + Group(ps[i..], run) == Group(ps, "")
    {
      GroupAt(ps, i, run);
      match ps[i] {
        case Ch(c) =>
          run := run + [c];
        case Slot(n, sp) =>
          var head := if run == "" then [] else [Plain(run)];
          var tail := Group(ps[i + 1..], "");
          assert result + (head + [Styled(n, sp)] + tail) == (result + head + [Styled(n, sp)]) + tail;
          result := result + head + [Styled(n, sp)];
          run := "";
      }
      i := i + 1;
    }
    assert ps[i..] == [];
    if run != "" {
      result := result + [Plain(run)];
    }
  }

  /** One step of the split, at position `i`. */
  lemma GroupAt(ps: seq<Piece>, i: nat, run: string)
    requires i < |ps|
    ensures ps[i].Ch? ==> Group(ps[i..], run) == Group(ps[i + 1..], run + [ps[i].c])
    ensures ps[i].Slot? ==>
              (Group(ps[i..], run) ==
               (if run == "" then [] else [Plain(run)]) + [Styled(ps[i].index, ps[i].span)] + Group(ps[i + 1..], ""))
  {
    assert ps[i..][0] == ps[i] && ps[i..][1..] == ps[i + 1..];
  }

  // ---------------------------------------------------------------------
  // Re-serialising: every span written back with its delimiters.

  function Unparse(ps: seq<Piece>): string
    decreases ps
  {
    if ps == [] then [] else PieceText(ps[0]) + Unparse(ps[1..])
  }

  function PieceText(p: Piece): string
    decreases p
  {
    match p
    case Ch(c) => [c]
    case Slot(_, sp) => SpanText(sp)
  }

  function SpanText(sp: Span): string
    decreases sp
  {
    match sp
    case Code(x) => "`" + Unparse(x) + "`"
    case Bold(x) => "**" + Unparse(x) + "**"
    case Italic(x) => "*" + Unparse(x) + "*"
    case Link(l, u) => "[" + Unparse(l) + "](" + Unparse(u) + ")"
  }

  function Unparsed(out: seq<Inline>): string {
    if out == [] then []
    else
      (match out[0] case Plain(t) => t case Styled(_, sp) => SpanText(sp)) + Unparsed(out[1..])
  }

  /** The placeholder text a slot leaves inside a later span's content. */
  function PieceDisplay(p: Piece): string {
    match p
    case Ch(c) => [c]
    case Slot(n, sp) =>
      var name := match sp case Code(_) => "CODE" case Bold(_) => "BOLD" case Italic(_) => "ITALIC" case Link(_, _) => "LINK";
      "__" + name + "_" + NatToString(n) + "__"
  }

  /** The text a span's content shows: characters as themselves, captured
      placeholders as their placeholder text. */
  function Display(ps: seq<Piece>): string {
    if ps == [] then "" else PieceDisplay(ps[0]) + Display(ps[1..])
  }

  /** The text a rendered element shows: a text part itself, a formatted
      element the captured group (for a link, its label). */
  function Shown(e: Inline): string {
    match e
    case Plain(t) => t
    case Styled(_, Code(x)) => Display(x)
    case Styled(_, Bold(x)) => Display(x)
    case Styled(_, Italic(x)) => Display(x)
    case Styled(_, Link(l, _)) => Display(l)
  }

  /** Content made of characters only shows exactly its source text. */
  lemma {:induction false} DisplayOfText(ps: seq<Piece>)
    requires AllChars(ps)
    ensures Display(ps) == Unparse(ps)
  {
    if ps != [] {
      DisplayOfText(ps[1..]);
    }
  }

  /** A code span captured inside a bold span shows as its placeholder
      text, not as code: `**`x`**` renders as bold "__CODE_n__". */
  lemma NestedPlaceholderShown(k: nat, n: nat, x: seq<Piece>)
    ensures Shown(Styled(k, Bold([Slot(n, Code(x))]))) == "__CODE_" + NatToString(n) + "__"
  {
    assert Display([Slot(n, Code(x))]) == PieceDisplay(Slot(n, Code(x))) + Display([]);
  }

  lemma {:induction false} UnparseAppend(a: seq<Piece>, b: seq<Piece>)
    ensures Unparse(a + b) == Unparse(a) + Unparse(b)
  {
    if a == [] {
      assert a + b == b;
    } else {
      assert (a + b)[0] == a[0];
      assert (a + b)[1..] == a[1..] + b;
      UnparseAppend(a[1..], b);
    }
  }

  lemma {:induction false} UnparseChars(s: string)
    ensures Unparse(Chars(s)) == s
  {
    if s != [] {
      assert Chars(s)[1..] == Chars(s[1..]);
      UnparseChars(s[1..]);
    }
  }

  /** A matched span re-serialises to exactly the pieces it replaced. */
  lemma {:induction false} MatchUnparses(pass: Pass, ps: seq<Piece>, i: nat)
    requires i < |ps| && MatchAt(pass, ps, i).Some?
    ensures SpanText(MatchAt(pass, ps, i).value.0) == Unparse(ps[i..MatchAt(pass, ps, i).value.1])
  {
    match pass {
      case CodePass => CodeMatchUnparses(ps, i);
      case BoldPass => BoldMatchUnparses(ps, i);
      case ItalicPass => ItalicMatchUnparses(ps, i);
      case LinkPass => LinkMatchUnparses(ps, i);
    }
  }

  lemma CodeMatchUnparses(ps: seq<Piece>, i: nat)
    requires i < |ps| && MatchAt(CodePass, ps, i).Some?
    ensures SpanText(MatchAt(CodePass, ps, i).value.0) == Unparse(ps[i..MatchAt(CodePass, ps, i).value.1])
  {
    var j := Find(ps, i + 1, '`');
    assert MatchAt(CodePass, ps, i).value == (Code(ps[i + 1..j]), j + 1);
    SingleDelimited(ps, i, j, '`');
  }

  lemma BoldMatchUnparses(ps: seq<Piece>, i: nat)
    requires i < |ps| && MatchAt(BoldPass, ps, i).Some?
    ensures SpanText(MatchAt(BoldPass, ps, i).value.0) == Unparse(ps[i..MatchAt(BoldPass, ps, i).value.1])
  {
    var j := Find(ps, i + 2, '*');
    assert MatchAt(BoldPass, ps, i).value == (Bold(ps[i + 2..j]), j + 2);
    DoubleDelimited(ps, i, j, '*');
  }

  lemma ItalicMatchUnparses(ps: seq<Piece>, i: nat)
    requires i < |ps| && MatchAt(ItalicPass, ps, i).Some?
    ensures SpanText(MatchAt(ItalicPass, ps, i).value.0) == Unparse(ps[i..MatchAt(ItalicPass, ps, i).value.1])
  {
    var j := Find(ps, i + 1, '*');
    assert MatchAt(ItalicPass, ps, i).value == (Italic(ps[i + 1..j]), j + 1);
    SingleDelimited(ps, i, j, '*');
  }

  lemma LinkMatchUnparses(ps: seq<Piece>, i: nat)
    requires i < |ps| && MatchAt(LinkPass, ps, i).Some?
    ensures SpanText(MatchAt(LinkPass, ps, i).value.0) == Unparse(ps[i..MatchAt(LinkPass, ps, i).value.1])
  {
    var j := Find(ps, i + 1, ']');
    var k := Find(ps, j + 2, ')');
    assert MatchAt(LinkPass, ps, i).value == (Link(ps[i + 1..j], ps[j + 2..k]), k + 1);
    LinkUnparses(ps, i, j, k);
  }

  lemma {:induction false} SingleDelimited(ps: seq<Piece>, i: nat, j: nat, c: char)
    requires i < j < |ps| && IsCh(ps[i], c) && IsCh(ps[j], c)
    ensures Unparse(ps[i..j + 1]) == [c] + Unparse(ps[i + 1..j]) + [c]
  {
    Enclosed(ps, i, 1, j, 1);
    UnparseOne(ps, i);
    UnparseOne(ps, j);
  }

  lemma {:induction false} DoubleDelimited(ps: seq<Piece>, i: nat, j: nat, c: char)
    requires i + 2 <= j && j + 1 < |ps|
    requires IsCh(ps[i], c) && IsCh(ps[i + 1], c) && IsCh(ps[j], c) && IsCh(ps[j + 1], c)
    ensures Unparse(ps[i..j + 2]) == [c, c] + Unparse(ps[i + 2..j]) + [c, c]
  {
    Enclosed(ps, i, 2, j, 2);
    UnparseTwo(ps, i);
    UnparseTwo(ps, j);
  }

  /** Content `[i + open, j)` between `open` and `close` delimiter pieces. */
  lemma {:induction false} Enclosed(ps: seq<Piece>, i: nat, open: nat, j: nat, close: nat)
    requires i + open <= j && j + close <= |ps|
    ensures Unparse(ps[i..j + close]) == Unparse(ps[i..i + open]) + Unparse(ps[i + open..j]) + Unparse(ps[j..j + close])
  {
    var x, y, z := ps[i..i + open], ps[i + open..j], ps[j..j + close];
    assert ps[i..j + close] == x + (y + z);
    UnparseAppend(x, y + z);
    UnparseAppend(y, z);
  }

  lemma {:induction false} UnparseSplit(ps: seq<Piece>, a: nat, b: nat, c: nat)
    requires a <= b <= c <= |ps|
    ensures Unparse(ps[a..c]) == Unparse(ps[a..b]) + Unparse(ps[b..c])
  {
    assert ps[a..c] == ps[a..b] + ps[b..c];
    UnparseAppend(ps[a..b], ps[b..c]);
  }

  lemma UnparseOne(ps: seq<Piece>, i: nat)
    requires i < |ps|
    ensures Unparse(ps[i..i + 1]) == PieceText(ps[i])
  {
    assert ps[i..i + 1][1..] == [];
  }

  lemma UnparseTwo(ps: seq<Piece>, i: nat)
    requires i + 1 < |ps|
    ensures Unparse(ps[i..i + 2]) == PieceText(ps[i]) + PieceText(ps[i + 1])
  {
    UnparseSplit(ps, i, i + 1, i + 2);
    UnparseOne(ps, i);
    UnparseOne(ps, i + 1);
  }

  lemma {:induction false} LinkUnparses(ps: seq<Piece>, i: nat, j: nat, k: nat)
    requires i + 2 <= j && j + 3 <= k < |ps|
    requires IsCh(ps[i], '[') && IsCh(ps[j], ']') && IsCh(ps[j + 1], '(') && IsCh(ps[k], ')')
    ensures SpanText(Link(ps[i + 1..j], ps[j + 2..k])) == Unparse(ps[i..k + 1])
  {
    UnparseSplit(ps, i, j, k + 1);
    LinkLabel(ps, i, j);
    LinkTarget(ps, j, k);
  }

  lemma {:induction false} LinkLabel(ps: seq<Piece>, i: nat, j: nat)
    requires i < j <= |ps| && IsCh(ps[i], '[')
    ensures Unparse(ps[i..j]) == "[" + Unparse(ps[i + 1..j])
  {
    UnparseSplit(ps, i, i + 1, j);
    UnparseOne(ps, i);
  }

  lemma {:induction false} LinkTarget(ps: seq<Piece>, j: nat, k: nat)
    requires j + 2 <= k < |ps| && IsCh(ps[j], ']') && IsCh(ps[j + 1], '(') && IsCh(ps[k], ')')
    ensures Unparse(ps[j..k + 1]) == "](" + Unparse(ps[j + 2..k]) + ")"
  {
    Enclosed(ps, j, 2, k, 1);
    UnparseTwo(ps, j);
    UnparseOne(ps, k);
  }

  /** A pass loses and duplicates nothing: writing every new span back
      with its delimiters gives the scanned pieces again. */
  lemma {:induction false} ReplaceUnparses(pass: Pass, ps: seq<Piece>, i: nat, next: nat)
    requires i <= |ps|
    ensures Unparse(Replace(pass, ps, i, next).0) == Unparse(ps[i..])
    decreases |ps| - i
  {
    if i < |ps| {
      match MatchAt(pass, ps, i) {
        case Some((sp, e)) =>
          ReplaceUnparses(pass, ps, e, next + 1);
          MatchedUnparses(pass, ps, i, next);
        case None =>
          ReplaceUnparses(pass, ps, i + 1, next);
          var rest := Replace(pass, ps, i + 1, next).0;
          assert ([ps[i]] + rest)[1..] == rest;
          assert ps[i..][1..] == ps[i + 1..];
      }
    }
  }

  /** The match case of `ReplaceUnparses`, given the claim for the rest. */
  lemma MatchedUnparses(pass: Pass, ps: seq<Piece>, i: nat, next: nat)
    requires i < |ps| && MatchAt(pass, ps, i).Some?
    requires var e := MatchAt(pass, ps, i).value.1;
             Unparse(Replace(pass, ps, e, next + 1).0) == Unparse(ps[e..])
    ensures Unparse(Replace(pass, ps, i, next).0) == Unparse(ps[i..])
  {
    var (sp, e) := MatchAt(pass, ps, i).value;
    MatchUnparses(pass, ps, i);
    var rest := Replace(pass, ps, e, next + 1).0;
    assert Replace(pass, ps, i, next).0 == [Slot(next, sp)] + rest;
    assert ([Slot(next, sp)] + rest)[1..] == rest;
    assert ps[i..] == ps[i..e] + ps[e..];
    UnparseAppend(ps[i..e], ps[e..]);
  }

  /** The split keeps every piece, in order. */
  lemma {:induction false} GroupUnparses(ps: seq<Piece>, run: string)
    ensures Unparsed(Group(ps, run)) == run + Unparse(ps)
  {
    if ps == [] {
      if run != "" { PlainUnparsed(run); }
    } else if ps[0].Ch? {
      GroupUnparses(ps[1..], run + [ps[0].c]);
      GroupAtChar(ps, run);
    } else {
      GroupUnparses(ps[1..], "");
      GroupAtSlot(ps, run);
    }
  }

  /** The character case of `GroupUnparses`, given the claim for the rest. */
  lemma GroupAtChar(ps: seq<Piece>, run: string)
    requires ps != [] && ps[0].Ch?
    requires Unparsed(Group(ps[1..], run + [ps[0].c])) == run + [ps[0].c] + Unparse(ps[1..])
    ensures Unparsed(Group(ps, run)) == run + Unparse(ps)
  {
    GroupTakesChar(ps, run);
    UnparseFirstChar(ps);
    AppendCharRegroup(run, ps[0].c, Unparse(ps[1..]));
  }

  // The three steps of `GroupAtChar`, kept apart so that each is proved in
  // a small context.
  lemma GroupTakesChar(ps: seq<Piece>, run: string)
    requires ps != [] && ps[0].Ch?
    ensures Group(ps, run) == Group(ps[1..], run + [ps[0].c])
  {}

  lemma UnparseFirstChar(ps: seq<Piece>)
    requires ps != [] && ps[0].Ch?
    ensures Unparse(ps) == [ps[0].c] + Unparse(ps[1..])
  {}

  lemma AppendCharRegroup(run: string, c: char, u: string)
    ensures run + [c] + u == run + ([c] + u)
  {}

  /** The slot case of `GroupUnparses`, given the claim for the rest. */
  lemma {:induction false} GroupAtSlot(ps: seq<Piece>, run: string)
    requires ps != [] && ps[0].Slot?
    requires Unparsed(Group(ps[1..], "")) == Unparse(ps[1..])
    ensures Unparsed(Group(ps, run)) == run + Unparse(ps)
  {
    var n, sp := ps[0].index, ps[0].span;
    var head := if run == "" then [] else [Plain(run)];
    var styled := [Styled(n, sp)] + Group(ps[1..], "");
    assert Group(ps, run) == head + styled;
    UnparsedAppend(head, styled);
    assert styled[0] == Styled(n, sp) && styled[1..] == Group(ps[1..], "");
    if run != "" { PlainUnparsed(run); }
  }

  lemma PlainUnparsed(t: string)
    ensures Unparsed([Plain(t)]) == t
  {
    assert Unparsed([Plain(t)]) == t + Unparsed([]);
  }

  lemma {:induction false} UnparsedAppend(a: seq<Inline>, b: seq<Inline>)
    ensures Unparsed(a + b) == Unparsed(a) + Unparsed(b)
  {
    if a == [] {
      assert a + b == b;
    } else {
      assert (a + b)[0] == a[0];
      assert (a + b)[1..] == a[1..] + b;
      UnparsedAppend(a[1..], b);
    }
  }

  /** Rendering loses and duplicates nothing: writing every element back,
      formatted ones with their delimiters, gives the text again. */
  lemma {:induction false} RenderInlineUnparses(text: string)
    ensures Unparsed(RenderInline(text)) == text
    ensures RenderInline(text) != []
  {
    var a := Replace(CodePass, Chars(text), 0, 0);
    var b := Replace(BoldPass, a.0, 0, a.1);
    var c := Replace(ItalicPass, b.0, 0, b.1);
    UnparseChars(text);
    ReplaceUnparses(CodePass, Chars(text), 0, 0);
    assert Chars(text)[0..] == Chars(text);
    ReplaceUnparses(BoldPass, a.0, 0, a.1);
    assert a.0[0..] == a.0;
    ReplaceUnparses(ItalicPass, b.0, 0, b.1);
    assert b.0[0..] == b.0;
    ReplaceUnparses(LinkPass, c.0, 0, c.1);
    assert c.0[0..] == c.0;
    GroupUnparses(Substituted(text), "");
    if Group(Substituted(text), "") == [] {
      assert Unparsed([Plain(text)]) == text + Unparsed([]);
    }
  }

  // ---------------------------------------------------------------------
  // Shape of the split and the order of the passes.

  /** The split never yields an empty text part nor two text parts in a
      row. */
  lemma {:induction false} GroupShape(ps: seq<Piece>, run: string)
    ensures forall k :: 0 <= k < |Group(ps, run)| && Group(ps, run)[k].Plain? ==> Group(ps, run)[k].text != ""
    ensures forall k :: 0 <= k < |Group(ps, run)| - 1 ==> !(Group(ps, run)[k].Plain? && Group(ps, run)[k + 1].Plain?)
    ensures run != "" && Group(ps, run) != [] ==> Group(ps, run)[0].Plain?
  {
    if ps != [] {
      match ps[0] {
        case Ch(c) =>
          GroupShape(ps[1..], run + [c]);
        case Slot(n, sp) =>
          GroupShape(ps[1..], "");
      }
    }
  }

  /** A pass over pieces none of which opens its pattern changes nothing. */
  lemma {:induction false} ReplaceWithoutOpener(pass: Pass, ps: seq<Piece>, i: nat, next: nat)
    requires i <= |ps|
    requires forall k :: i <= k < |ps| ==> !IsCh(ps[k], '`') && !IsCh(ps[k], '*') && !IsCh(ps[k], '[')
    ensures Replace(pass, ps, i, next) == (ps[i..], next)
    decreases |ps| - i
  {
    if i < |ps| {
      ReplaceWithoutOpener(pass, ps, i + 1, next);
      assert ps[i..] == [ps[i]] + ps[i + 1..];
    }
  }

  /** A run of characters becomes one text part. */
  lemma {:induction false} GroupOfChars(s: string, run: string)
    ensures Group(Chars(s), run) == if run + s == "" then [] else [Plain(run + s)]
  {
    if s != [] {
      assert Chars(s)[1..] == Chars(s[1..]);
      GroupOfChars(s[1..], run + [s[0]]);
      assert run + [s[0]] + s[1..] == run + s;
    } else {
      assert run + s == run;
    }
  }

  /** Text without a backquote, an asterisk, an opening bracket or `__` is
      returned as the single text part. */
  lemma {:induction false} PlainTextUnchanged(text: string)
    requires '`' !in text && '*' !in text && '[' !in text && !Contains(text, "__")
    ensures RenderInline(text) == [Plain(text)]
  {
    var ps := Chars(text);
    assert ps[0..] == ps;
    ReplaceWithoutOpener(CodePass, ps, 0, 0);
    ReplaceWithoutOpener(BoldPass, ps, 0, 0);
    ReplaceWithoutOpener(ItalicPass, ps, 0, 0);
    ReplaceWithoutOpener(LinkPass, ps, 0, 0);
    GroupOfChars(text, "");
    assert "" + text == text;
  }

  /** A later pass keeps a lone slot as it is. */
  lemma {:induction false} ReplaceLoneSlot(pass: Pass, n: nat, sp: Span, next: nat)
    ensures Replace(pass, [Slot(n, sp)], 0, next) == ([Slot(n, sp)], next)
  {
    var ps := [Slot(n, sp)];
    assert MatchAt(pass, ps, 0).None?;
    assert Replace(pass, ps, 1, next) == ([], next);
    assert [ps[0]] + [] == ps;
  }

  /** A text that is one code span renders as that code element, numbered
      0, with its content untouched by the bold, italic and link passes. */
  lemma {:induction false} SingleCodeSpan(c: string)
    requires c != "" && '`' !in c
    ensures RenderInline("`" + c + "`") == [Styled(0, Code(Chars(c)))]
  {
    var text := "`" + c + "`";
    var ps := Chars(text);
    var j := Find(ps, 1, '`');
    assert IsCh(ps[|text| - 1], '`');
    assert j == |text| - 1;
    assert ps[1..j] == Chars(c);
    assert MatchAt(CodePass, ps, 0) == Some((Code(Chars(c)), |text|));
    assert Replace(CodePass, ps, |text|, 1) == ([], 1);
    var a := Replace(CodePass, ps, 0, 0);
    assert a == ([Slot(0, Code(Chars(c)))] + [], 1);
    assert [Slot(0, Code(Chars(c)))] + [] == [Slot(0, Code(Chars(c)))];
    ReplaceLoneSlot(BoldPass, 0, Code(Chars(c)), 1);
    ReplaceLoneSlot(ItalicPass, 0, Code(Chars(c)), 1);
    ReplaceLoneSlot(LinkPass, 0, Code(Chars(c)), 1);
    assert Substituted(text) == [Slot(0, Code(Chars(c)))];
    assert Group([Slot(0, Code(Chars(c)))], "") == [Styled(0, Code(Chars(c)))] + Group([], "");
  }

  /** Inline code is substituted first, so its content is never parsed as
      bold, italic or a link: in every text, every code span, including one
      captured inside a later span, holds characters only, and a code
      element shows exactly the text between its backquotes. */
  lemma {:induction false} CodeSpanIsOpaque(text: string)
    ensures CodeIsText(Substituted(text))
    ensures forall k :: 0 <= k < |RenderInline(text)| && RenderInline(text)[k].Styled? ==>
              SpanCodeIsText(RenderInline(text)[k].span)
    ensures forall k :: 0 <= k < |RenderInline(text)| && RenderInline(text)[k].Styled? && RenderInline(text)[k].span.Code? ==>
              Shown(RenderInline(text)[k]) == Unparse(RenderInline(text)[k].span.code)
  {
    var ps := Chars(text);
    var a := Replace(CodePass, ps, 0, 0);
    var b := Replace(BoldPass, a.0, 0, a.1);
    var c := Replace(ItalicPass, b.0, 0, b.1);
    ReplaceKeepsCodeText(CodePass, ps, 0, 0);
    ReplaceKeepsCodeText(BoldPass, a.0, 0, a.1);
    ReplaceKeepsCodeText(ItalicPass, b.0, 0, b.1);
    ReplaceKeepsCodeText(LinkPass, c.0, 0, c.1);
    var sub := Substituted(text);
    GroupKeepsSlots(sub, "");
    forall k | 0 <= k < |RenderInline(text)| && RenderInline(text)[k].Styled?
      ensures SpanCodeIsText(RenderInline(text)[k].span)
      ensures RenderInline(text)[k].span.Code? ==> Shown(RenderInline(text)[k]) == Unparse(RenderInline(text)[k].span.code)
    {
      var e := RenderInline(text)[k];
      var g := Group(sub, "");
      assert g != [] && e == g[k];
      var q :| 0 <= q < |sub| && sub[q] == Slot(e.index, e.span);
      assert PieceCodeIsText(sub[q]);
      assert SpanCodeIsText(e.span);
      if e.span.Code? {
        assert AllChars(e.span.code);
        DisplayOfText(e.span.code);
      }
    }
  }

  /** A pass keeps the property: only the code pass makes code spans, and it
      runs on characters only; the other passes capture pieces that already
      have it. */
  lemma {:induction false} ReplaceKeepsCodeText(pass: Pass, ps: seq<Piece>, i: nat, next: nat)
    requires i <= |ps| && CodeIsText(ps)
    requires pass == CodePass ==> AllChars(ps)
    ensures CodeIsText(Replace(pass, ps, i, next).0)
    decreases |ps| - i
  {
    if i < |ps| {
      match MatchAt(pass, ps, i) {
        case Some((sp, e)) =>
          ReplaceKeepsCodeText(pass, ps, e, next + 1);
          MatchedSpanCodeIsText(pass, ps, i);
          CodeIsTextCons(Slot(next, sp), Replace(pass, ps, e, next + 1).0);
        case None =>
          ReplaceKeepsCodeText(pass, ps, i + 1, next);
          CodeIsTextCons(ps[i], Replace(pass, ps, i + 1, next).0);
      }
    }
  }

  lemma CodeIsTextCons(p: Piece, rest: seq<Piece>)
    requires PieceCodeIsText(p) && CodeIsText(rest)
    ensures CodeIsText([p] + rest)
  {
    assert forall k :: 1 <= k < |rest| + 1 ==> ([p] + rest)[k] == rest[k - 1];
  }

  /** Every formatted element of the split is a slot of its input. */
  lemma {:induction false} GroupKeepsSlots(ps: seq<Piece>, run: string)
    ensures forall k :: 0 <= k < |Group(ps, run)| && Group(ps, run)[k].Styled? ==>
              exists q :: 0 <= q < |ps| && ps[q] == Slot(Group(ps, run)[k].index, Group(ps, run)[k].span)
  {
    if ps != [] {
      match ps[0] {
        case Ch(c) =>
          GroupKeepsSlots(ps[1..], run + [c]);
          forall k | 0 <= k < |Group(ps, run)| && Group(ps, run)[k].Styled?
            ensures exists q :: 0 <= q < |ps| && ps[q] == Slot(Group(ps, run)[k].index, Group(ps, run)[k].span)
          {
            var q :| 0 <= q < |ps[1..]| && ps[1..][q] == Slot(Group(ps, run)[k].index, Group(ps, run)[k].span);
            assert ps[q + 1] == ps[1..][q];
          }
        case Slot(n, sp) =>
          GroupKeepsSlots(ps[1..], "");
          var head := if run == "" then [] else [Plain(run)];
          var tail := Group(ps[1..], "");
          assert Group(ps, run) == head + [Styled(n, sp)] + tail;
          forall k | 0 <= k < |Group(ps, run)| && Group(ps, run)[k].Styled?
            ensures exists q :: 0 <= q < |ps| && ps[q] == Slot(Group(ps, run)[k].index, Group(ps, run)[k].span)
          {
            if k == |head| {
              assert ps[0] == Slot(n, sp);
            } else {
              assert k > |head|;
              assert Group(ps, run)[k] == tail[k - |head| - 1];
              var q :| 0 <= q < |ps[1..]| && ps[1..][q] == Slot(tail[k - |head| - 1].index, tail[k - |head| - 1].span);
              assert ps[q + 1] == ps[1..][q];
            }
          }
      }
    }
  }

  /** The span a pass captures has the property when its input has it. */
  lemma MatchedSpanCodeIsText(pass: Pass, ps: seq<Piece>, i: nat)
    requires i < |ps| && CodeIsText(ps) && MatchAt(pass, ps, i).Some?
    requires pass == CodePass ==> AllChars(ps)
    ensures SpanCodeIsText(MatchAt(pass, ps, i).value.0)
  {
    match pass {
      case CodePass => CodeCaptured(ps, i);
      case BoldPass => BoldCaptured(ps, i);
      case ItalicPass => ItalicCaptured(ps, i);
      case LinkPass => LinkCaptured(ps, i);
    }
  }

  lemma CodeCaptured(ps: seq<Piece>, i: nat)
    requires i < |ps| && AllChars(ps) && MatchAt(CodePass, ps, i).Some?
    ensures SpanCodeIsText(MatchAt(CodePass, ps, i).value.0)
  {
    var e := SingleClose(ps, i, '`').value;
    assert MatchAt(CodePass, ps, i).value.0 == Code(ps[i + 1..e - 1]);
    assert AllChars(ps[i + 1..e - 1]);
  }

  lemma BoldCaptured(ps: seq<Piece>, i: nat)
    requires i < |ps| && CodeIsText(ps) && MatchAt(BoldPass, ps, i).Some?
    ensures SpanCodeIsText(MatchAt(BoldPass, ps, i).value.0)
  {
    var e := BoldClose(ps, i).value;
    assert MatchAt(BoldPass, ps, i).value.0 == Bold(ps[i + 2..e - 2]);
    CodeIsTextSlice(ps, i + 2, e - 2);
  }

  lemma ItalicCaptured(ps: seq<Piece>, i: nat)
    requires i < |ps| && CodeIsText(ps) && MatchAt(ItalicPass, ps, i).Some?
    ensures SpanCodeIsText(MatchAt(ItalicPass, ps, i).value.0)
  {
    var e := SingleClose(ps, i, '*').value;
    assert MatchAt(ItalicPass, ps, i).value.0 == Italic(ps[i + 1..e - 1]);
    CodeIsTextSlice(ps, i + 1, e - 1);
  }

  lemma LinkCaptured(ps: seq<Piece>, i: nat)
    requires i < |ps| && CodeIsText(ps) && MatchAt(LinkPass, ps, i).Some?
    ensures SpanCodeIsText(MatchAt(LinkPass, ps, i).value.0)
  {
    var (j, e) := LinkClose(ps, i).value;
    assert MatchAt(LinkPass, ps, i).value.0 == Link(ps[i + 1..j], ps[j + 2..e - 1]);
    CodeIsTextSlice(ps, i + 1, j);
    CodeIsTextSlice(ps, j + 2, e - 1);
  }

  lemma CodeIsTextSlice(ps: seq<Piece>, a: nat, b: nat)
    requires a <= b <= |ps| && CodeIsText(ps)
    ensures CodeIsText(ps[a..b])
  {
    assert forall k :: 0 <= k < b - a ==> ps[a..b][k] == ps[a + k];
  }
}
