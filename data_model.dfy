/** The persisted object graph of Fishky: decks own flashcards.

    A deck owns an ordered array of flashcards; deleting a deck from its
    persistence context deletes its flashcards too (cascade), and every owned
    flashcard's `deck` field points back at the deck that owns it (inverse).
    The persistence context is a `Store` holding the set of live entities, and
    the wall clock (`Date.now`) is the `now` parameter of the operations that
    read it. */
module DataModel {

  /** The text a flashcard describes itself with. */
  function FlashcardDescription(front: string, back: string): (r: string)
    ensures |r| == |front| + |back| + 34
    ensures r[..21] == "Flashcard(frontText: "
    ensures r[21..21 + |front|] == front
    ensures r[21 + |front|..33 + |front|] == ", backText: "
    ensures r[33 + |front|..33 + |front| + |back|] == back
    ensures r[|r| - 1] == ')'
  {
    "Flashcard(frontText: " + front + ", backText: " + back + ")"
  }

  /** Two flashcards whose front texts have the same length describe
      themselves alike only when both of their texts agree. */
  lemma DescriptionDeterminesTexts(f1: string, b1: string, f2: string, b2: string)
    requires |f1| == |f2|
    requires FlashcardDescription(f1, b1) == FlashcardDescription(f2, b2)
    ensures f1 == f2 && b1 == b2
  {
    var d := FlashcardDescription(f1, b1);
    assert f1 == d[21..21 + |f1|];
    assert b1 == d[33 + |f1|..33 + |f1| + |b1|];
  }

  /** The flashcards owned by a set of decks: what a cascade delete of those
      decks removes besides the decks themselves. */
  ghost function OwnedCards(ds: set<Deck>): set<Flashcard>
    reads ds
  {
    set d, f | d in ds && f in d.flashcards :: f
  }

  /** A persistence context: the entities it currently holds. */
  class Store {
    var decks: set<Deck>
    var cards: set<Flashcard>

    constructor ()
      ensures decks == {} && cards == {}
    {
      decks, cards := {}, {};
    }

    /** Deletes a deck and, by the cascade rule, every flashcard it owns. */
    method Delete(d: Deck)
      modifies this
      ensures decks == old(decks) - {d}
      ensures cards == old(cards) - (set f | f in d.flashcards)
    {
      decks := decks - {d};
      cards := cards - (set f | f in d.flashcards);
    }

    /** Deletes one flashcard. */
    method DeleteCard(f: Flashcard)
      modifies this
      ensures cards == old(cards) - {f}
      ensures decks == old(decks)
    {
      cards := cards - {f};
    }
  }

  class Deck {
    var name: string
    var icon: string
    var timeCreated: int
    var timeUpdated: int
    var flashcards: seq<Flashcard>
    /** The context holding this deck, if it has been inserted into one. */
    var context: Store?

    /** Every owned flashcard refers back to this deck. */
    ghost predicate Valid()
      reads this, flashcards
    {
      forall f :: f in flashcards ==> f.deck == this
    }

    /** A new deck: the given name and icon, no flashcards, both timestamps
        set to the creation time. */
    constructor (now: int, name: string := "", icon: string := "")
      ensures this.name == name && this.icon == icon
      ensures timeCreated == now && timeUpdated == now
      ensures flashcards == [] && context == null
      ensures Valid()
    {
      this.name := name;
      this.icon := icon;
      timeCreated, timeUpdated := now, now;
      flashcards := [];
      context := null;
    }

    /** Touches the update timestamp. */
    method DeckUpdated(now: int)
      modifies this`timeUpdated
      ensures timeUpdated == now
    {
      timeUpdated := now;
    }

    /** Appends a flashcard that belongs to no deck yet; the inverse
        relationship makes this deck its owner. */
    method AddFlashcard(f: Flashcard, now: int)
      requires Valid()
      requires f.deck == null
      modifies this`flashcards, this`timeUpdated, f`deck
      ensures flashcards == old(flashcards) + [f]
      ensures f.deck == this
      ensures timeUpdated == now
      ensures Valid()
    {
      flashcards := flashcards + [f];
      f.deck := this;
      DeckUpdated(now);
    }

    /** `addFlashcard()` with its default argument: appends a new, blank
        flashcard. */
    method AddBlankFlashcard(now: int) returns (f: Flashcard)
      requires Valid()
      modifies this`flashcards, this`timeUpdated
      ensures fresh(f)
      ensures f.frontText == "" && f.backText == "" && f.deck == this
      ensures flashcards == old(flashcards) + [f]
      ensures timeUpdated == now
      ensures Valid()
    {
      f := new Flashcard();
      AddFlashcard(f, now);
    }

    /** Deletes `decks[o]` for every offset `o`, all from the context of the
        first deck; nothing happens when there is no first deck or it has no
        context. */
    static method DeleteItems(offsets: set<nat>, decks: seq<Deck>)
      requires |decks| > 0 && decks[0].context != null ==> forall o :: o in offsets ==> o < |decks|
      modifies if |decks| > 0 then {decks[0].context} else {}
      ensures |decks| > 0 && decks[0].context != null ==>
        var picked := set o | o in offsets :: decks[o];
        decks[0].context.decks == old(decks[0].context.decks) - picked &&
        decks[0].context.cards == old(decks[0].context.cards) - OwnedCards(picked)
    {
      if |decks| == 0 || decks[0].context == null {
        return;
      }
      var context := decks[0].context;
      var todo := offsets;
      ghost var done: set<nat> := {};
      while todo != {}
        invariant todo + done == offsets && todo !! done
        invariant context.decks == old(context.decks) - (set o | o in done :: decks[o])
        invariant context.cards == old(context.cards) - OwnedCards(set o | o in done :: decks[o])
        decreases todo
      {
        var o :| o in todo;
        context.Delete(decks[o]);
        todo, done := todo - {o}, done + {o};
      }
    }

    /** Deletes a deck from its own context; a detached deck is left alone. */
    static method DeleteItem(d: Deck)
      modifies d.context
      ensures d.context != null ==>
        d.context.decks == old(d.context.decks) - {d} &&
        d.context.cards == old(d.context.cards) - (set f | f in d.flashcards)
    {
      if d.context != null {
        d.context.Delete(d);
      }
    }
  }

  class Flashcard {
    var frontText: string
    var backText: string
    var deck: Deck?
    var context: Store?

    /** A new flashcard with the given texts, owned by no deck. */
    constructor (front: string := "", back: string := "")
      ensures frontText == front && backText == back
      ensures deck == null && context == null
    {
      frontText, backText := front, back;
      deck, context := null, null;
    }

    function Description(): string
      reads this
    {
      FlashcardDescription(frontText, backText)
    }

    /** Passes the timestamp touch on to the owning deck, if there is one. */
    method DeckUpdated(now: int)
      modifies deck
      ensures deck != null ==> deck.timeUpdated == now
      ensures deck != null ==>
        deck.name == old(deck.name) && deck.icon == old(deck.icon) &&
        deck.timeCreated == old(deck.timeCreated) &&
        deck.flashcards == old(deck.flashcards) && deck.context == old(deck.context)
    {
      if deck != null {
        deck.DeckUpdated(now);
      }
    }

    /** Deletes a flashcard from its own context; a detached flashcard is
        left alone. */
    static method DeleteItem(f: Flashcard)
      modifies f.context
      ensures f.context != null ==>
        f.context.cards == old(f.context.cards) - {f} &&
        f.context.decks == old(f.context.decks)
    {
      if f.context != null {
        f.context.DeleteCard(f);
      }
    }
  }
}
