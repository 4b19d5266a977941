/** The flash-card viewer `FlashCards`: a cyclic index over a fixed,
    non-empty deck and a flag for which side of the current card shows. */
module FlashCardDeck {
  import opened Wrappers

  datatype FlashCard = FlashCard(front: string, back: string)

  /** The index after `i` in a deck of `n` cards, wrapping to the first. */
  function NextIndex(i: nat, n: nat): (j: nat)
    requires i < n
    ensures j < n
    ensures i + 1 < n ==> j == i + 1
    ensures i + 1 == n ==> j == 0
  {
    (i + 1) % n
  }

  /** The index before `i` in a deck of `n` cards, wrapping to the last. */
  function PrevIndex(i: nat, n: nat): (j: nat)
    requires i < n
    ensures j < n
    ensures i > 0 ==> j == i - 1
    ensures i == 0 ==> j == n - 1
  {
    (i - 1 + n) % n
  }

  /** Going back undoes going forward. */
  lemma PrevAfterNext(i: nat, n: nat)
    requires i < n
    ensures PrevIndex(NextIndex(i, n), n) == i
  {
  }

  /** Going forward undoes going back. */
  lemma NextAfterPrev(i: nat, n: nat)
    requires i < n
    ensures NextIndex(PrevIndex(i, n), n) == i
  {
  }

  /** `k` steps forward from `i`. */
  function Advance(i: nat, n: nat, k: nat): (j: nat)
    requires i < n
    ensures j < n
  {
    if k == 0 then i else NextIndex(Advance(i, n, k - 1), n)
  }

  /** Stepping forward without passing the last card just adds. */
  lemma {:induction false} AdvanceWithin(i: nat, n: nat, k: nat)
    requires i + k < n
    ensures Advance(i, n, k) == i + k
  {
    if k > 0 {
      AdvanceWithin(i, n, k - 1);
    }
  }

  /** `a` steps and then `b` more are `a + b` steps. */
  lemma {:induction false} AdvanceCompose(i: nat, n: nat, a: nat, b: nat)
    requires i < n
    ensures Advance(Advance(i, n, a), n, b) == Advance(i, n, a + b)
  {
    if b > 0 {
      AdvanceCompose(i, n, a, b - 1);
    }
  }

  /** As many steps forward as there are cards return to the start: the
      first `n - i` steps reach the first card past the wrap, the remaining
      `i` lead back to `i`. */
  lemma FullCycle(i: nat, n: nat)
    requires i < n
    ensures Advance(i, n, n) == i
  {
    AdvanceWithin(i, n, n - i - 1);
    assert Advance(i, n, n - i) == 0;
    if i > 0 {
      AdvanceWithin(0, n, i);
    }
    AdvanceCompose(i, n, n - i, i);
  }

  /** What the viewer shows: a placeholder for a missing or empty deck,
      otherwise the current card, the side, and the `position / total`
      counter. */
  datatype View =
    | Placeholder
    | CardView(card: FlashCard, showsBack: bool, position: nat, total: nat)

  function ViewOf(cards: Option<seq<FlashCard>>, index: nat, flipped: bool): (v: View)
    requires cards.Some? && cards.value != [] ==> index < |cards.value|
    ensures v.Placeholder? <==> cards.None? || cards.value == []
    ensures v.CardView? ==> v.card == cards.value[index] && v.showsBack == flipped
    ensures v.CardView? ==> 1 <= v.position <= v.total == |cards.value| && v.position == index + 1
  {
    if cards.None? || cards.value == [] then Placeholder
    else CardView(cards.value[index], flipped, index + 1, |cards.value|)
  }

  class Viewer {
    const cards: seq<FlashCard>
    var currentIndex: nat
    var isFlipped: bool

    ghost predicate Valid()
      reads this
    {
      currentIndex < |cards|
    }

    /** A viewer over a non-empty deck starts at the first card, front up. */
    constructor (cards: seq<FlashCard>)
      requires cards != []
      ensures Valid()
      ensures this.cards == cards && currentIndex == 0 && !isFlipped
    {
      this.cards := cards;
      currentIndex := 0;
      isFlipped := false;
    }

    /** `handleNext`: front up, then the next card, wrapping to the first. */
    method HandleNext()
      requires Valid()
      modifies this
      ensures Valid()
      ensures currentIndex == NextIndex(old(currentIndex), |cards|) && !isFlipped
    {
      isFlipped := false;
      currentIndex := (currentIndex + 1) % |cards|;
    }

    /** `handlePrev`: front up, then the previous card, wrapping to the last. */
    method HandlePrev()
      requires Valid()
      modifies this
      ensures Valid()
      ensures currentIndex == PrevIndex(old(currentIndex), |cards|) && !isFlipped
    {
      isFlipped := false;
      currentIndex := (currentIndex - 1 + |cards|) % |cards|;
    }

    /** A click on the card turns it over. */
    method Flip()
      requires Valid()
      modifies this
      ensures Valid()
      ensures isFlipped == !old(isFlipped) && currentIndex == old(currentIndex)
    {
      isFlipped := !isFlipped;
    }

    /** The card on show. */
    function Current(): (c: FlashCard)
      requires Valid()
      reads this
      ensures c in cards
    {
      cards[currentIndex]
    }
  }
}
