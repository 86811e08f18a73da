/** Drag-to-reorder for a list of items.

    While an item is dragged (`active`), hovering it over another item issues
    one move request in the insert-before convention of an `(IndexSet, Int)`
    move: the source is the dragged item's position, the destination the
    position in front of which it is inserted once it has been taken out. The
    two drop delegates write the `active` and `hasChangedLocation` bindings of
    the list they belong to, so they are modelled as methods on that shared
    state; the `moveAction` callback is modelled by the log of requests it
    received. */
module Reorder {
  import opened Wrappers

  /** `firstIndex(of:)`: the position of the first occurrence of `x`. */
  function FirstIndexOf<T(==)>(s: seq<T>, x: T): (r: Option<nat>)
    ensures r.None? <==> x !in s
    ensures r.Some? ==> r.value < |s| && s[r.value] == x && x !in s[..r.value]
  {
    if |s| == 0 then None
    else if s[0] == x then Some(0)
    else match FirstIndexOf(s[1..], x)
      case None => None
      case Some(i) =>
        assert s[..i + 1] == [s[0]] + s[1..][..i];
        Some(i + 1)
  }

  /** The offset handed to the move: one past the hovered position when the
      dragged item comes from before it, the hovered position otherwise. */
  function Destination(from: nat, to: nat): nat
  {
    if to > from then to + 1 else to
  }

  /** A request to move the items at `source` in front of `destination`. */
  datatype MoveRequest = MoveRequest(source: set<nat>, destination: nat)

  /** The positions a drop-entered event relates: the dragged item's and the
      hovered item's. */
  datatype Relocation = Relocation(from: nat, to: nat)

  /** What entering `item` with `active` dragged asks for: nothing unless an
      item is dragged, it is not `item` itself, and both are in `items`. */
  function RelocationFor<T(==)>(items: seq<T>, active: Option<T>, item: T): (r: Option<Relocation>)
    ensures r.Some? <==> active.Some? && active.value != item && active.value in items && item in items
    ensures r.Some? ==>
      r.value.from < |items| && r.value.to < |items| &&
      items[r.value.from] == active.value && active.value !in items[..r.value.from] &&
      items[r.value.to] == item && item !in items[..r.value.to] &&
      r.value.from != r.value.to
  {
    if active.None? || active.value == item then None
    else match (FirstIndexOf(items, active.value), FirstIndexOf(items, item))
      case (Some(from), Some(to)) => Some(Relocation(from, to))
      case _ => None
  }

  /** Moving the item at `from` in front of the item at `dest`, by taking it
      out and inserting it back before what was at `dest`. */
  function MoveItem<T>(s: seq<T>, from: nat, dest: nat): (r: seq<T>)
    requires from < |s| && dest <= |s|
  {
    var rest := s[..from] + s[from + 1..];
    var at := if dest > from then dest - 1 else dest;
    rest[..at] + [s[from]] + rest[at..]
  }

  /** A relocation from `from` over `to` puts the dragged item exactly at the
      hovered item's former position; the items in between shift one place
      towards `from`, and everything outside that window stays put. */
  lemma {:induction false} MoveLandsOnHovered<T>(s: seq<T>, from: nat, to: nat)
    requires from < |s| && to < |s| && from != to
    ensures Destination(from, to) <= |s|
    ensures var r := MoveItem(s, from, Destination(from, to));
      |r| == |s| && r[to] == s[from] &&
      (forall k :: 0 <= k < |s| && (k < from || k > to) && (k < to || k > from) ==> r[k] == s[k]) &&
      (forall k :: from <= k < to ==> r[k] == s[k + 1]) &&
      (forall k :: to < k <= from ==> r[k] == s[k - 1])
  {
  }

  /** A relocation neither adds nor loses items. */
  lemma {:induction false} MoveIsPermutation<T>(s: seq<T>, from: nat, dest: nat)
    requires from < |s| && dest <= |s|
    ensures multiset(MoveItem(s, from, dest)) == multiset(s)
  {
    var rest := s[..from] + s[from + 1..];
    var at := if dest > from then dest - 1 else dest;
    assert s == s[..from] + [s[from]] + s[from + 1..];
    assert rest == rest[..at] + rest[at..];
    calc {
      multiset(MoveItem(s, from, dest));
      multiset(rest[..at]) + multiset([s[from]]) + multiset(rest[at..]);
      multiset(rest) + multiset([s[from]]);
      multiset(s[..from]) + multiset(s[from + 1..]) + multiset([s[from]]);
      multiset(s);
    }
  }

  /** The move a drop-entered event requests puts the dragged item where the
      hovered item was, and moves the hovered item one place towards where the
      dragged item came from. */
  lemma RelocationSwapsIntoPlace<T>(items: seq<T>, active: Option<T>, item: T)
    requires RelocationFor(items, active, item).Some?
    ensures var r := RelocationFor(items, active, item).value;
      var d := Destination(r.from, r.to);
      d <= |items| &&
      MoveItem(items, r.from, d)[r.to] == active.value &&
      MoveItem(items, r.from, d)[if r.to > r.from then r.to - 1 else r.to + 1] == item
  {
    var r := RelocationFor(items, active, item).value;
    MoveLandsOnHovered(items, r.from, r.to);
  }

  class ReorderableForEach<Item(==)> {
    /** The items in their current order; replaced when the list re-renders. */
    var items: seq<Item>
    const reorderingEnabled: bool
    /** The dragged item, shared with the enclosing list. */
    var active: Option<Item>
    var hasChangedLocation: bool
    /** The requests `moveAction` received, oldest first. */
    var moves: seq<MoveRequest>

    constructor (items: seq<Item>, active: Option<Item>, reorderingEnabled: bool := true)
      ensures this.items == items && this.active == active
      ensures this.reorderingEnabled == reorderingEnabled
      ensures !hasChangedLocation && moves == []
    {
      this.items := items;
      this.active := active;
      this.reorderingEnabled := reorderingEnabled;
      hasChangedLocation := false;
      moves := [];
    }

    /** Only with reordering enabled does an item offer a drag. */
    predicate OffersDrag()
    {
      reorderingEnabled
    }

    /** An item is drawn dimmed while it is dragged over another position. */
    predicate IsDimmed(item: Item)
      reads this
    {
      reorderingEnabled && active == Some(item) && hasChangedLocation
    }

    /** The list re-renders with the items in their new order (after a move
        request has been carried out); the drag state survives. */
    method ItemsChanged(newItems: seq<Item>)
      modifies this`items
      ensures items == newItems
    {
      items := newItems;
    }

    /** Starting a drag makes the item the active one. The drag starts dimmed
        when `hasChangedLocation` is still set from an earlier drag that was
        dropped outside the items. */
    method DragData(item: Item)
      requires OffersDrag()
      modifies this`active
      ensures active == Some(item)
      ensures IsDimmed(item) <==> hasChangedLocation
    {
      active := Some(item);
    }

    /** The dragged item enters `item`'s drop area. */
    method DropEntered(item: Item)
      requires OffersDrag()
      modifies this`hasChangedLocation, this`moves
      ensures var r := RelocationFor(items, active, item);
        hasChangedLocation == (r.Some? || old(hasChangedLocation)) &&
        moves == old(moves) +
          if r.Some? then [MoveRequest({r.value.from}, Destination(r.value.from, r.value.to))] else []
    {
      if active.None? || active.value == item {
        return;
      }
      var current := active.value;
      var from := FirstIndexOf(items, current);
      if from.None? {
        return;
      }
      var to := FirstIndexOf(items, item);
      if to.None? {
        return;
      }
      hasChangedLocation := true;
      if items[to.value] != current {
        moves := moves + [MoveRequest({from.value}, Destination(from.value, to.value))];
      }
    }

    /** Dropping on an item ends the drag and accepts the drop. */
    method PerformDrop() returns (accepted: bool)
      modifies this`active, this`hasChangedLocation
      ensures accepted && active.None? && !hasChangedLocation
      ensures forall item :: !IsDimmed(item)
    {
      hasChangedLocation := false;
      active := None;
      accepted := true;
    }

    /** Dropping outside the items ends the drag and accepts the drop. */
    method PerformDropOutside() returns (accepted: bool)
      modifies this`active
      ensures accepted && active.None?
      ensures hasChangedLocation == old(hasChangedLocation)
    {
      active := None;
      accepted := true;
    }
  }
}
