# Fishky — a verified model of its data layer and view state rules

Fishky is a flashcard app: decks own front/back flashcards, the deck screen
lists them, lets the user reorder them by dragging, select and delete them in
edit mode, and opens a full-screen study session in which the cards come in a
random order and turn over when tapped.

This project models, in Dafny, the parts of that code that carry rules rather
than layout:

- `DataModel` (`data_model.dfy`): the `Deck` and `Flashcard` classes with their
  fields, constructors, timestamp touches, `addFlashcard`, and the static
  delete helpers, over a persistence context `Store` that holds the set of
  live decks and flashcards. Deleting a deck cascades to its flashcards;
  `Deck.Valid()` is the inverse relationship (every owned flashcard's `deck`
  is its owner). `Date.now` is the `now` parameter.
- `Reorder` (`reorder.dfy`): the drag-to-reorder container and its two drop
  delegates. The delegates write the `active` and `hasChangedLocation`
  bindings of the container, so they are methods on one shared-state class;
  the `moveAction` callback is the log `moves` of requests it received.
  `RelocationFor` is the decision `dropEntered` makes; `MoveItem` is the
  insert-before meaning of an `(IndexSet, Int)` move of one element, used to
  state where a requested move puts the items.
- `FlashcardList` (`flashcard_list.dfy`): the selection set of `order` values
  and the calls the list makes on its deck, recorded as `DeckRequest`s.
- `Study` (`study.dfy`): the study session's initial state and tap-to-flip.
- `FlashcardEdit` (`flashcard_edit.dfy`): the two-press delete confirmation,
  as a class whose methods are proved against a pure `Step` function, and
  lemmas over arbitrary event sequences (`Run`).
- `DeckScreen` (`deck_screen.dfy`): the blank-deck cleanup on leaving the
  screen, adding a flashcard, and the Study toggle.
- `Wrappers` (`wrappers.dfy`): `Option`.

## Model

| member | source | states |
|---|---|---|
| DataModel.Deck.constructor | Fishky/SwiftData/Deck.swift:13-24 | a new deck has the given name and icon (default empty), no flashcards, no context, both timestamps equal to the creation time, and satisfies the inverse invariant |
| DataModel.Deck.DeckUpdated | Fishky/SwiftData/Deck.swift:30-32 | sets `timeUpdated` to now and touches no other field |
| DataModel.Deck.AddFlashcard | Fishky/SwiftData/Deck.swift:48-52 | the card becomes the last element, the earlier elements are unchanged, the card's `deck` becomes this deck (inverse), `timeUpdated` becomes now; name, icon and `timeCreated` are outside the frame and stay |
| DataModel.Deck.AddBlankFlashcard | Fishky/SwiftData/Deck.swift:49-51 | with the default argument a fresh flashcard with empty front and back texts is appended and owned by the deck |
| DataModel.Deck.DeleteItems | Fishky/SwiftData/Deck.swift:36-42 | when the first deck has a context, exactly the decks at the given offsets and the flashcards they own leave that context; every offset must be in bounds then; with no first deck or no context nothing is modified |
| DataModel.Deck.DeleteItem | Fishky/SwiftData/Deck.swift:44-46 | removes exactly that deck and, by the cascade, its flashcards from its context; a detached deck changes nothing |
| DataModel.Store.Delete | Fishky/SwiftData/Deck.swift:18-19 | the cascade rule: deleting a deck deletes every flashcard it owns and nothing else |
| DataModel.Flashcard.constructor | Fishky/SwiftData/Flashcard.swift:21-24 | stores the two texts (default empty); the card starts without a deck |
| DataModel.FlashcardDescription | Fishky/SwiftData/Flashcard.swift:26-28 | the description is `Flashcard(frontText: `, the front text, `, backText: `, the back text and `)`, with each part at its position |
| DataModel.DescriptionDeterminesTexts | Fishky/SwiftData/Flashcard.swift:26-28 | for front texts of equal length, equal descriptions mean equal texts |
| DataModel.Flashcard.Description | Fishky/SwiftData/Flashcard.swift:26-28 | a flashcard describes itself by `FlashcardDescription` of its two texts |
| DataModel.Flashcard.DeckUpdated | Fishky/SwiftData/Flashcard.swift:30-36 | with a deck, sets that deck's `timeUpdated` to now and leaves its name, icon, `timeCreated`, flashcards and context; without a deck nothing is modifiable; the flashcard itself is never changed |
| DataModel.Store.DeleteCard | Fishky/SwiftData/Flashcard.swift:39 | deleting a flashcard from a context removes exactly that flashcard and no deck |
| DataModel.Flashcard.DeleteItem | Fishky/SwiftData/Flashcard.swift:38-40 | removes exactly that flashcard from its context, leaving the decks; a detached flashcard changes nothing |
| Reorder.FirstIndexOf | Fishky/Views/Support/ReorderableForEach.swift:113-114 | absent exactly when the element is not in the list; otherwise an in-bounds index holding the element with no earlier occurrence |
| Reorder.RelocationFor | Fishky/Views/Support/ReorderableForEach.swift:111-119 | a move is asked for exactly when an item is dragged, it is not the hovered item, and both are in the list; then `from` and `to` are their first indices and `from != to`, so the `items[to] != current` test always holds |
| Reorder.Destination | Fishky/Views/Support/ReorderableForEach.swift:117 | the move's offset: `to + 1` when the hovered position is after the dragged one, `to` otherwise |
| Reorder.MoveIsPermutation | Fishky/Views/Support/ReorderableForEach.swift:117 | a one-element move in insert-before convention keeps the same items (same multiset) |
| Reorder.MoveLandsOnHovered | Fishky/Views/Support/ReorderableForEach.swift:117 | with destination `to + 1` when `to > from` and `to` otherwise, the dragged item lands at the hovered item's former index, the items between shift one place towards `from`, and all others stay |
| Reorder.RelocationSwapsIntoPlace | Fishky/Views/Support/ReorderableForEach.swift:111-119 | under the insert-before convention (`MoveItem`), the move a drop-entered event requests puts the dragged item at the hovered position and the hovered item right next to it; what the deck's own move does with the request is not part of this model |
| Reorder.ReorderableForEach.constructor | Fishky/Views/Support/ReorderableForEach.swift:8-22 | reordering is enabled by default; `hasChangedLocation` starts false and no move has been requested |
| Reorder.ReorderableForEach.ItemsChanged | Fishky/Views/Support/ReorderableForEach.swift:39-45 | a re-render replaces the items with their new order while `active`, `hasChangedLocation` and the move log survive |
| Reorder.ReorderableForEach.DragData | Fishky/Views/Support/ReorderableForEach.swift:94-97 | starting a drag makes the item the active one; only offered with reordering enabled; the item is dimmed at once exactly when `hasChangedLocation` is still set |
| Reorder.ReorderableForEach.DropEntered | Fishky/Views/Support/ReorderableForEach.swift:111-119 | when `RelocationFor` finds a move, sets `hasChangedLocation` and appends exactly one request with source `{from}` and the computed destination; otherwise changes nothing |
| Reorder.ReorderableForEach.OffersDrag | Fishky/Views/Support/ReorderableForEach.swift:55-56 | an item offers a drag only when reordering is enabled |
| Reorder.ReorderableForEach.IsDimmed | Fishky/Views/Support/ReorderableForEach.swift:55-78 | an item is dimmed exactly when reordering is enabled, it is the active item and the drag has changed location |
| Reorder.ReorderableForEach.PerformDrop | Fishky/Views/Support/ReorderableForEach.swift:125-129 | clears `active`, resets `hasChangedLocation`, accepts the drop; afterwards no item is dimmed |
| Reorder.ReorderableForEach.PerformDropOutside | Fishky/Views/Support/ReorderableForEach.swift:142-145 | clears `active` and accepts the drop; `hasChangedLocation` keeps its value, so the next drag can start dimmed |
| FlashcardList.Toggle | Fishky/Views/Deck/FlashcardListView.swift:156-165 | the tapped order value is in the new selection exactly when it was not before, and no other value changes membership |
| FlashcardList.ToggleTwice | Fishky/Views/Deck/FlashcardListView.swift:156-165 | toggling the same flashcard twice restores the selection |
| FlashcardList.ToggleSize | Fishky/Views/Deck/FlashcardListView.swift:156-165 | each toggle changes the number of selected flashcards by exactly one |
| FlashcardList.FlashcardListView.constructor | Fishky/Views/Deck/FlashcardListView.swift:39 | the selection starts empty and no call has been made on the deck |
| FlashcardList.FlashcardListView.IsSelected | Fishky/Views/Deck/FlashcardListView.swift:89-90 | a tile shows as selected exactly when its order value is in the selection |
| FlashcardList.FlashcardListView.DeleteDisabled | Fishky/Views/Deck/FlashcardListView.swift:145 | the Delete button is disabled exactly when the selection is empty |
| FlashcardList.FlashcardListView.ToggleSelection | Fishky/Views/Deck/FlashcardListView.swift:156-165 | the selection becomes its toggle by the flashcard's order |
| FlashcardList.FlashcardListView.DeleteFlashcards | Fishky/Views/Deck/FlashcardListView.swift:167-175 | hands the whole current selection to the deck in one call, then the selection is empty and the Delete button disabled |
| FlashcardList.FlashcardListView.DeleteFlashcard | Fishky/Views/Deck/FlashcardListView.swift:176-183 | hands the tile's flashcard to the deck in one call |
| FlashcardList.FlashcardListView.MoveAction | Fishky/Views/Deck/FlashcardListView.swift:133-135 | a reorder request reaches the deck unchanged |
| Study.Unflipped | Fishky/Views/Study/FullscreenStudyView.swift:34 | as many flip states as cards, all false |
| Study.Flip | Fishky/Views/Study/FullscreenStudyView.swift:58-60 | the tapped entry is negated, every other entry and the length stay |
| Study.FlipTwice | Fishky/Views/Study/FullscreenStudyView.swift:59 | tapping the same card twice restores its side |
| Study.FullscreenStudyView.constructor | Fishky/Views/Study/FullscreenStudyView.swift:26-38 | the session's cards are a permutation of the deck's, `flipped` has one false entry per card, `currentIndex` is 0 |
| Study.FullscreenStudyView.CurrentFlashcard | Fishky/Views/Study/FullscreenStudyView.swift:29 | the current card is only defined for an in-range `currentIndex`, and is one of the session's cards |
| Study.FullscreenStudyView.ShowsNoFlashcards | Fishky/Views/Study/FullscreenStudyView.swift:70 | the "No flashcards" notice is shown exactly when the session has no cards |
| Study.FullscreenStudyView.Tap | Fishky/Views/Study/FullscreenStudyView.swift:58-60 | the flip state becomes `Flip` of the old one at the tapped index; one state per card is kept |
| FlashcardEdit.Label | Fishky/Views/FlashcardEditView.swift:76-80 | the button shows the trash icon exactly when unarmed, the word "Delete" when armed |
| FlashcardEdit.EditModeChange | Fishky/Views/FlashcardEditView.swift:92-96 | leaving edit mode disarms, entering it keeps the flag, and neither calls `handleDelete` |
| FlashcardEdit.ArmedIffPressedSinceLeaving | Fishky/Views/FlashcardEditView.swift:33-46 | from the initial unarmed state, the button is armed exactly when a press happened after edit mode was last left |
| FlashcardEdit.HandleDeleteNeedsArming | Fishky/Views/FlashcardEditView.swift:40-46 | a press calls `handleDelete` once exactly when an earlier press armed the button and edit mode was not left since, otherwise not at all |
| FlashcardEdit.FewerDeletesThanPresses | Fishky/Views/FlashcardEditView.swift:40-46 | `handleDelete` runs strictly fewer times than the button is pressed, so never on the first press |
| FlashcardEdit.ArmedOnlyWhileEditing | Fishky/Views/FlashcardEditView.swift:74-96 | when the button is only pressed where it is shown, in edit mode, it is never armed outside edit mode |
| FlashcardEdit.FlashcardEditView.ButtonLabel | Fishky/Views/FlashcardEditView.swift:76-80 | the view's button shows `Label` of its confirmation flag |
| FlashcardEdit.FlashcardEditView.constructor | Fishky/Views/FlashcardEditView.swift:33-38 | `confirmDeletion` starts false and `handleDelete` has not been called |
| FlashcardEdit.FlashcardEditView.InternalHandleDelete | Fishky/Views/FlashcardEditView.swift:40-46 | pressed only in edit mode, where the button is shown; an armed press calls `handleDelete` once and stays armed; an unarmed press only arms |
| FlashcardEdit.FlashcardEditView.EditingChanged | Fishky/Views/FlashcardEditView.swift:92-96 | records the new edit mode and, when edit mode was left, disarms |
| DeckScreen.IsBlank | Fishky/Views/Deck/DeckView.swift:108 | the cleanup condition: empty name, no flashcards and empty icon |
| DeckScreen.DeckView.constructor | Fishky/Views/Deck/DeckView.swift:36-42 | `studyMode` starts false |
| DeckScreen.DeckView.ToggleStudyMode | Fishky/Views/Deck/DeckView.swift:93-95 | each Study press flips `studyMode` |
| DeckScreen.DeckView.AddFlashcard | Fishky/Views/Deck/DeckView.swift:126-129 | appends exactly one fresh blank flashcard owned by the deck and touches `timeUpdated` |
| DeckScreen.DeckView.OnDisappear | Fishky/Views/Deck/DeckView.swift:105-111 | the deck leaves its context exactly when its name, flashcards and icon are all empty; a deck with a card, a name or an icon is kept; no flashcard is removed |

## Left out

- The ordering engine the views call (`moveFlashcard`, `deleteFlashcards`, `deleteFlashcard`), the flashcards' `order` field and the knowledge tracking (`updateKnowledge`, knowledge levels): none is defined in the modelled files, so the model records the calls made to them (`DeckRequest`) and takes `order` values as plain integers, without giving them any semantics.
- Persistence: `save`, `insert`, model container setup, and what SwiftData does implicitly — inserting a flashcard appended to a deck that lives in a context, detaching a flashcard that is added to a second deck (hence `AddFlashcard` requires a card without a deck), removing a deleted flashcard from its deck's array, and the re-insert of the deck after the cleanup on leaving the deck screen.
- DataModel.Deck.constructor: `timeCreated` and `timeUpdated` read `Date.now` separately in the source; the model gives both the same `now`.
- The textual description of a deck, which formats `Date` values.
- The shuffle: the study session is given its card order and requires only that it is a permutation of the deck's cards.
- The drag payload (`NSItemProvider` with the item's identifier) and `dropUpdated`'s move proposal.
- Reorder.ReorderableForEach.DropEntered: the `items` array and the bindings are shared between the container and its delegates in the source; the model keeps them on one object, and a re-render after a move is the explicit `ItemsChanged` call rather than a rebuilt view.
- Layout, styling, animation, floating-point geometry, image picking, logging and the older duplicate deck screen.
