/** A study session over one deck.

    The session shows the deck's flashcards in a random order, each one
    face up to begin with; tapping a card turns it over. The shuffle is not
    modelled: the session is given its order, which must be a permutation of
    the deck's flashcards. */
module Study {
  import opened DataModel

  /** `n` cards, none of them turned over. */
  function Unflipped(n: nat): (r: seq<bool>)
    ensures |r| == n && forall k :: 0 <= k < n ==> !r[k]
  {
    seq(n, _ => false)
  }

  /** Turning card `i` over. */
  function Flip(s: seq<bool>, i: nat): (r: seq<bool>)
    requires i < |s|
    ensures |r| == |s| && r[i] == !s[i]
    ensures forall k :: 0 <= k < |s| && k != i ==> r[k] == s[k]
  {
    s[i := !s[i]]
  }

  /** Turning the same card over twice restores its side. */
  lemma FlipTwice(s: seq<bool>, i: nat)
    requires i < |s|
    ensures Flip(Flip(s, i), i) == s
  {
  }

  class FullscreenStudyView {
    const deck: Deck
    var flashcards: seq<Flashcard>
    var currentIndex: int
    var flipped: seq<bool>

    /** One flip state per card. */
    ghost predicate Valid()
      reads this
    {
      |flipped| == |flashcards|
    }

    /** `init(deck:)`, given the order `shuffled()` produced. */
    constructor (deck: Deck, shuffled: seq<Flashcard>)
      requires multiset(shuffled) == multiset(deck.flashcards)
      ensures this.deck == deck && flashcards == shuffled
      ensures multiset(flashcards) == multiset(deck.flashcards)
      ensures flipped == Unflipped(|flashcards|)
      ensures currentIndex == 0
      ensures Valid()
    {
      this.deck := deck;
      flashcards := shuffled;
      flipped := Unflipped(|shuffled|);
      currentIndex := 0;
    }

    /** The card at `currentIndex`, which only exists inside the session. */
    function CurrentFlashcard(): (r: Flashcard)
      reads this
      requires 0 <= currentIndex < |flashcards|
      ensures r in flashcards
    {
      flashcards[currentIndex]
    }

    /** The "No flashcards" notice is shown exactly for an empty session. */
    predicate ShowsNoFlashcards()
      reads this
    {
      flashcards == []
    }

    /** Tapping the card at `index`. */
    method Tap(index: nat)
      requires Valid() && index < |flipped|
      modifies this`flipped
      ensures flipped == Flip(old(flipped), index)
      ensures Valid()
    {
      flipped := flipped[index := !flipped[index]];
    }
  }
}
