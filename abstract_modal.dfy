/** The paper abstract dialog `AbstractModal`: which callback a key press
    invokes, when its navigation buttons are enabled, and the author and
    date labels it shows. */
module PaperModal {
  import opened Wrappers
  import opened Text
  import opened ResearchTypes

  /** The callbacks the dialog receives from its parent. */
  datatype Callback = OnClose | OnNext | OnPrev

  /** The window `keydown` listener: nothing while closed; otherwise Escape
      closes, ArrowRight goes on when there is a next paper and ArrowLeft
      goes back when there is a previous one. The listener tests the three
      keys one after another; since a key has one name, at most one test
      succeeds, which the chain of cases here makes explicit. */
  function KeyCallbacks(isOpen: bool, key: string, hasNext: bool, hasPrev: bool): (calls: seq<Callback>)
    ensures |calls| <= 1
    ensures !isOpen ==> calls == []
    ensures calls == [OnClose] <==> isOpen && key == "Escape"
    ensures calls == [OnNext] <==> isOpen && key == "ArrowRight" && hasNext
    ensures calls == [OnPrev] <==> isOpen && key == "ArrowLeft" && hasPrev
  {
    if !isOpen then []
    else if key == "Escape" then [OnClose]
    else if key == "ArrowRight" then (if hasNext then [OnNext] else [])
    else if key == "ArrowLeft" && hasPrev then [OnPrev]
    else []
  }

  /** The Prev button's `disabled` attribute. */
  predicate PrevDisabled(hasPrev: bool) {
    !hasPrev
  }

  /** The Next button's `disabled` attribute. */
  predicate NextDisabled(hasNext: bool) {
    !hasNext
  }

  /** A button click reaches the same callback as the matching arrow key,
      and only when the button is enabled. */
  lemma ButtonsMatchKeys(hasNext: bool, hasPrev: bool)
    ensures !NextDisabled(hasNext) <==> KeyCallbacks(true, "ArrowRight", hasNext, hasPrev) == [OnNext]
    ensures !PrevDisabled(hasPrev) <==> KeyCallbacks(true, "ArrowLeft", hasNext, hasPrev) == [OnPrev]
  {
  }

  const UnknownAuthors := "Unknown Authors"
  const UnknownDate := "Unknown Date"

  /** The author line: the names joined by a comma and a space, or a
      placeholder for an empty list. */
  function AuthorsLabel(authors: seq<string>): (r: string)
    ensures authors == [] ==> r == UnknownAuthors
    ensures |authors| == 1 ==> r == authors[0]
    ensures authors != [] ==> StartsWith(r, authors[0])
  {
    if |authors| > 0 then Join(authors, ", ") else UnknownAuthors
  }

  /** Every author of a non-empty list appears in the author line. */
  lemma {:induction false} AuthorsAllShown(authors: seq<string>)
    requires authors != []
    ensures forall k :: 0 <= k < |authors| ==> Contains(AuthorsLabel(authors), authors[k])
  {
    forall k | 0 <= k < |authors|
      ensures Contains(AuthorsLabel(authors), authors[k])
    {
      JoinShowsPart(authors, ", ", k);
    }
  }

  lemma {:induction false} JoinShowsPart(parts: seq<string>, sep: string, k: nat)
    requires k < |parts|
    ensures Contains(Join(parts, sep), parts[k])
    decreases |parts|
  {
    var s := Join(parts, sep);
    if k == 0 {
      if |parts| > 1 {
        assert s == parts[0] + (sep + Join(parts[1..], sep));
      }
      assert s[..|parts[0]|] == parts[0];
      assert OccursAt(s, parts[0], 0);
    } else {
      var rest := Join(parts[1..], sep);
      JoinShowsPart(parts[1..], sep, k - 1);
      var i :| OccursAt(rest, parts[k], i);
      var front := parts[0] + sep;
      assert s == front + rest;
      assert s[|front| + i..|front| + i + |parts[k]|] == rest[i..i + |parts[k]|];
      assert OccursAt(s, parts[k], |front| + i);
    }
  }

  /** The date line: the publication date in the viewer's locale (`format`
      stands for `toLocaleDateString`), or a placeholder when it is empty. */
  function DateLabel(published: string, format: string -> string): (r: string)
    ensures published == "" ==> r == UnknownDate
    ensures published != "" ==> r == format(published)
  {
    if published != "" then format(published) else UnknownDate
  }

  /** What the dialog renders: nothing unless it is open and has a paper. */
  datatype Content = Hidden | Shown(title: string, authors: string, date: string, summary: string)

  function ContentOf(isOpen: bool, paper: Option<ResearchPaper>, format: string -> string): (c: Content)
    ensures c.Shown? <==> isOpen && paper.Some?
    ensures c.Shown? ==> c.title == paper.value.title && c.summary == paper.value.summary
    ensures c.Shown? ==> c.authors == AuthorsLabel(paper.value.authors)
    ensures c.Shown? ==> c.date == DateLabel(paper.value.published, format)
  {
    if isOpen && paper.Some? then
      Shown(paper.value.title, AuthorsLabel(paper.value.authors), DateLabel(paper.value.published, format), paper.value.summary)
    else Hidden
  }
}
