/**
 * The flashcard viewer (frontend/src/modules/flashcards/component/FlashcardView.tsx):
 * its `flashcards`, `index`, `flipped` and `loading` state as a class,
 * the guarded next/previous steps, the reset when a new card list
 * arrives, and what the buttons and the counter show. The fetch is a
 * parameter; the card flip itself belongs to the Flashcard component and
 * is only the `flipped` flag here.
 */
module FlashcardView {
  import opened Wrappers
  import opened Strings

  datatype FlashcardData = FlashcardData(question: string, answer: string)

  /** `next` moves only before the last card. */
  predicate CanNext(index: int, count: nat) {
    index < count - 1
  }

  /** `prev` moves only after the first card. */
  predicate CanPrev(index: int) {
    index > 0
  }

  /** The Previous button is disabled on the first card. */
  predicate PrevDisabled(index: int) {
    index == 0
  }

  /** The Next button is disabled on the last card. */
  predicate NextDisabled(index: int, count: nat) {
    index == count - 1
  }

  /** The counter under the card: "`index + 1` / `count`". */
  function Counter(index: nat, count: nat): string {
    NatToString(index + 1) + " / " + NatToString(count)
  }

  /** The card shown and the bounds `0 <= index <= max(0, count - 1)`. */
  predicate InRange(index: int, count: nat) {
    0 <= index && (index < count || index == 0)
  }

  /**
   * With cards to show and the index in range, each button is disabled
   * exactly when its handler would refuse to move, and the counter's
   * first number lies in 1..count.
   */
  lemma ButtonsMatchGuards(index: int, count: nat)
    requires count > 0 && InRange(index, count)
    ensures PrevDisabled(index) <==> !CanPrev(index)
    ensures NextDisabled(index, count) <==> !CanNext(index, count)
    ensures 1 <= index + 1 <= count
  {
  }

  /** The counter reads back as the position and the number of cards. */
  lemma CounterReadsBack(index: nat, count: nat)
    ensures var c := Counter(index, count);
      var shown, total := NatToString(index + 1), NatToString(count);
      c[..|shown|] == shown && c[|shown|..|shown| + 3] == " / " && c[|shown| + 3..] == total
  {
  }

  /** The viewer's state. */
  class Viewer {
    var flashcards: seq<FlashcardData>
    var index: int
    var flipped: bool
    var loading: bool
    var lastActivity: int

    predicate Valid()
      reads this
    {
      InRange(index, |flashcards|)
    }

    /** The first render: no cards yet, loading. */
    constructor ()
      ensures Valid() && flashcards == [] && index == 0 && !flipped && loading
    {
      flashcards := [];
      index := 0;
      flipped := false;
      loading := true;
      lastActivity := 0;
    }

    /**
     * The fetch effect for note `noteId` followed by the reset effect. An
     * unset note id starts nothing. Otherwise loading ends; without a
     * session token nothing is fetched; a fetch that resolves to `fetched`
     * (an empty list for a null reply) replaces the cards, and the new
     * list resets the position to the first card, face up; a fetch that
     * throws (None) keeps the cards and the position.
     */
    method Load(noteId: int, token: string, fetched: Option<seq<FlashcardData>>)
      requires Valid()
      modifies this
      ensures Valid() && lastActivity == old(lastActivity)
      ensures noteId == 0 ==> (flashcards == old(flashcards) && index == old(index) && flipped == old(flipped)
        && loading == old(loading))
      ensures noteId != 0 ==> !loading
      ensures var replaced := noteId != 0 && token != "" && fetched.Some?;
        && (replaced ==> flashcards == fetched.value && index == 0 && !flipped)
        && (!replaced ==> flashcards == old(flashcards) && index == old(index) && flipped == old(flipped))
    {
      if noteId == 0 {
        return;
      }
      loading := true;
      if token != "" && fetched.Some? {
        SetCards(fetched.value);
      }
      loading := false;
    }

    /** A new card list: the reset effect puts the position back on the first card, face up. */
    method SetCards(cards: seq<FlashcardData>)
      modifies this
      ensures Valid() && flashcards == cards && index == 0 && !flipped
      ensures loading == old(loading) && lastActivity == old(lastActivity)
    {
      flashcards := cards;
      index := 0;
      flipped := false;
    }

    /** Turning the card over. */
    method SetFlipped(face: bool)
      requires Valid()
      modifies this
      ensures Valid() && flipped == face
      ensures flashcards == old(flashcards) && index == old(index) && loading == old(loading)
      ensures lastActivity == old(lastActivity)
    {
      flipped := face;
    }

    /** `next`: one card on, face up, recording the activity time; refused on the last card. */
    method Next(now: int)
      requires Valid()
      modifies this
      ensures Valid() && flashcards == old(flashcards) && loading == old(loading)
      ensures CanNext(old(index), |flashcards|) ==> index == old(index) + 1 && !flipped && lastActivity == now
      ensures !CanNext(old(index), |flashcards|) ==> (index == old(index) && flipped == old(flipped)
        && lastActivity == old(lastActivity))
    {
      if CanNext(index, |flashcards|) {
        index := index + 1;
        flipped := false;
        lastActivity := now;
      }
    }

    /** `prev`: one card back, face up, recording the activity time; refused on the first card. */
    method Prev(now: int)
      requires Valid()
      modifies this
      ensures Valid() && flashcards == old(flashcards) && loading == old(loading)
      ensures CanPrev(old(index)) ==> index == old(index) - 1 && !flipped && lastActivity == now
      ensures !CanPrev(old(index)) ==> (index == old(index) && flipped == old(flipped)
        && lastActivity == old(lastActivity))
    {
      if CanPrev(index) {
        index := index - 1;
        flipped := false;
        lastActivity := now;
      }
    }
  }
}
