/** The flashcard list of a deck: multi-selection by `order` value in edit
    mode, and the structural edits it hands on to its deck.

    The deck-side operations it calls (`moveFlashcard`, `deleteFlashcards`,
    `deleteFlashcard`) and the flashcards' `order` field are not part of this
    model; the list's calls to them are recorded as `DeckRequest`s, and a
    flashcard is identified by its `order` value where the list reads it. */
module FlashcardList {
  import opened DataModel

  /** A call the list makes on its deck. */
  datatype DeckRequest =
    | MoveFlashcardCall(from: set<nat>, to: nat)
    | DeleteFlashcardsCall(orders: set<int>)
    | DeleteFlashcardCall(card: Flashcard)

  /** The selection after tapping the flashcard whose order is `x`. */
  function Toggle(s: set<int>, x: int): (r: set<int>)
    ensures x in r <==> x !in s
    ensures forall y :: y != x ==> (y in r <==> y in s)
  {
    if x in s then s - {x} else s + {x}
  }

  /** Tapping the same flashcard twice restores the selection. */
  lemma ToggleTwice(s: set<int>, x: int)
    ensures Toggle(Toggle(s, x), x) == s
  {
  }

  /** Each tap changes the number of selected flashcards by exactly one. */
  lemma ToggleSize(s: set<int>, x: int)
    ensures |Toggle(s, x)| == if x in s then |s| - 1 else |s| + 1
  {
  }

  class FlashcardListView {
    const deck: Deck
    /** The `order` values of the selected flashcards. */
    var selectedFlashcards: set<int>
    /** The calls made on `deck`, oldest first. */
    var requests: seq<DeckRequest>

    constructor (deck: Deck)
      ensures this.deck == deck && selectedFlashcards == {} && requests == []
    {
      this.deck := deck;
      selectedFlashcards := {};
      requests := [];
    }

    /** A tile shows the filled check mark exactly when it is selected. */
    predicate IsSelected(order: int)
      reads this
    {
      order in selectedFlashcards
    }

    /** The toolbar's Delete button is disabled while nothing is selected. */
    predicate DeleteDisabled()
      reads this
    {
      selectedFlashcards == {}
    }

    method ToggleSelection(order: int)
      modifies this`selectedFlashcards
      ensures selectedFlashcards == Toggle(old(selectedFlashcards), order)
    {
      if order in selectedFlashcards {
        selectedFlashcards := selectedFlashcards - {order};
      } else {
        selectedFlashcards := selectedFlashcards + {order};
      }
    }

    /** Hands the whole selection to the deck, then clears it. */
    method DeleteFlashcards()
      modifies this`selectedFlashcards, this`requests
      ensures requests == old(requests) + [DeleteFlashcardsCall(old(selectedFlashcards))]
      ensures selectedFlashcards == {} && DeleteDisabled()
    {
      requests := requests + [DeleteFlashcardsCall(selectedFlashcards)];
      selectedFlashcards := {};
    }

    /** The delete button of a single tile. */
    method DeleteFlashcard(card: Flashcard)
      modifies this`requests
      ensures requests == old(requests) + [DeleteFlashcardCall(card)]
    {
      requests := requests + [DeleteFlashcardCall(card)];
    }

    /** The list's `moveAction`: a reorder request reaches the deck as it is. */
    method MoveAction(from: set<nat>, to: nat)
      modifies this`requests
      ensures requests == old(requests) + [MoveFlashcardCall(from, to)]
    {
      requests := requests + [MoveFlashcardCall(from, to)];
    }
  }
}
