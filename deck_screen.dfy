/** The deck screen: adding flashcards, opening a study session, and
    removing a deck that was left blank. */
module DeckScreen {
  import opened DataModel

  /** A deck with no name, no icon and no flashcards. */
  predicate IsBlank(name: string, icon: string, cards: seq<Flashcard>)
  {
    name == "" && cards == [] && icon == ""
  }

  class DeckView {
    const deck: Deck
    var studyMode: bool

    constructor (deck: Deck)
      ensures this.deck == deck && !studyMode
    {
      this.deck := deck;
      studyMode := false;
    }

    /** The Study button opens or closes the full-screen session. */
    method ToggleStudyMode()
      modifies this`studyMode
      ensures studyMode == !old(studyMode)
    {
      studyMode := !studyMode;
    }

    /** The new-flashcard button: one blank flashcard at the end of the deck. */
    method AddFlashcard(now: int) returns (f: Flashcard)
      requires deck.Valid()
      modifies deck`flashcards, deck`timeUpdated
      ensures fresh(f) && f.frontText == "" && f.backText == "" && f.deck == deck
      ensures deck.flashcards == old(deck.flashcards) + [f]
      ensures deck.timeUpdated == now
      ensures deck.Valid()
    {
      f := deck.AddBlankFlashcard(now);
    }

    /** Leaving the screen deletes the deck exactly when it is blank. */
    method OnDisappear()
      modifies deck.context
      ensures deck.context != null ==>
        deck.context.cards == old(deck.context.cards) &&
        deck.context.decks ==
          if IsBlank(deck.name, deck.icon, deck.flashcards)
          then old(deck.context.decks) - {deck}
          else old(deck.context.decks)
    {
      if IsBlank(deck.name, deck.icon, deck.flashcards) {
        Deck.DeleteItem(deck);
      }
    }
  }
}
