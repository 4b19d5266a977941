/** The paper list `PapersGrid`: the index of the paper whose abstract is
    open, stepped by the dialog's Next and Prev, and the dialog props it
    derives from that index. An empty list renders nothing, so no dialog
    exists for it. */
module PaperGrid {
  import opened Wrappers
  import opened ResearchTypes
  import opened PaperModal

  class Grid {
    const papers: seq<ResearchPaper>
    /** `selectedPaperIndex`: the open paper, if any. */
    var selected: Option<nat>

    /** The selection is absent or names a paper of the list. */
    ghost predicate Valid()
      reads this
    {
      selected.Some? ==> selected.value < |papers|
    }

    constructor (papers: seq<ResearchPaper>)
      ensures Valid()
      ensures this.papers == papers && selected.None?
    {
      this.papers := papers;
      selected := None;
    }

    /** The `hasNext` prop: a paper is open and it is not the last. */
    predicate HasNext()
      reads this
    {
      selected.Some? && selected.value < |papers| - 1
    }

    /** The `hasPrev` prop: a paper is open and it is not the first. */
    predicate HasPrev()
      reads this
    {
      selected.Some? && selected.value > 0
    }

    /** The `isOpen` prop. */
    predicate IsOpen()
      reads this
    {
      selected.Some?
    }

    /** The `paper` prop: the open paper, or none. */
    function ModalPaper(): (p: Option<ResearchPaper>)
      requires Valid()
      reads this
      ensures p.Some? <==> IsOpen()
      ensures p.Some? ==> p.value == papers[selected.value]
    {
      if selected.Some? then Some(papers[selected.value]) else None
    }

    /** `onReadAbstract` of card `idx`. */
    method Select(idx: nat)
      requires idx < |papers|
      modifies this
      ensures Valid()
      ensures selected == Some(idx)
    {
      selected := Some(idx);
    }

    /** `onClose`. */
    method Close()
      modifies this
      ensures Valid()
      ensures selected.None? && !IsOpen()
    {
      selected := None;
    }

    /** `handleNext`: one paper on when there is a next one, else nothing. */
    method HandleNext()
      requires Valid()
      modifies this
      ensures Valid()
      ensures old(HasNext()) ==> selected == Some(old(selected).value + 1)
      ensures !old(HasNext()) ==> selected == old(selected)
    {
      if selected.Some? && selected.value < |papers| - 1 {
        selected := Some(selected.value + 1);
      }
    }

    /** `handlePrev`: one paper back when there is a previous one, else
        nothing. */
    method HandlePrev()
      requires Valid()
      modifies this
      ensures Valid()
      ensures old(HasPrev()) ==> selected == Some(old(selected).value - 1)
      ensures !old(HasPrev()) ==> selected == old(selected)
    {
      if selected.Some? && selected.value > 0 {
        selected := Some(selected.value - 1);
      }
    }

    /** A key press reaching the dialog: its callbacks, run against this
        grid. */
    method PressKey(key: string)
      requires Valid()
      modifies this
      ensures Valid()
      ensures old(IsOpen()) && key == "Escape" ==> !IsOpen()
      ensures old(HasNext()) && key == "ArrowRight" ==> selected == Some(old(selected).value + 1)
      ensures old(HasPrev()) && key == "ArrowLeft" ==> selected == Some(old(selected).value - 1)
      ensures KeyCallbacks(old(IsOpen()), key, old(HasNext()), old(HasPrev())) == [] ==> selected == old(selected)
    {
      var calls := KeyCallbacks(IsOpen(), key, HasNext(), HasPrev());
      if calls == [OnClose] {
        Close();
      } else if calls == [OnNext] {
        HandleNext();
      } else if calls == [OnPrev] {
        HandlePrev();
      }
    }

    /** The dialog shows a paper exactly while one is selected. */
    lemma ContentShownIffSelected(format: string -> string)
      requires Valid()
      ensures ContentOf(IsOpen(), ModalPaper(), format).Shown? <==> selected.Some?
    {
    }
  }
}
