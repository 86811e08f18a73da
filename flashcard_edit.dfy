/** The two-press delete button of a flashcard in edit mode.

    The first press arms the button (its label turns from a trash icon into
    the word "Delete"); only a press on an armed button calls the
    `handleDelete` callback. Leaving edit mode disarms it. The callback is
    modelled by the number of times it has been called. */
module FlashcardEdit {

  datatype EditorState = EditorState(isEditing: bool, confirmDeletion: bool, deleteCalls: nat)

  /** What happens to the view: a press on the delete button, or the
      `onChange(of: isEditing)` handler firing with the new edit mode. */
  datatype EditorEvent = DeletePressed | EditingChanged(isEditing: bool)

  datatype ButtonLabel = TrashIcon | DeleteText

  /** A freshly shown view: unarmed, the callback not yet called. */
  function Initial(isEditing: bool): EditorState
  {
    EditorState(isEditing, false, 0)
  }

  /** One event. A press does what `internalHandleDelete` does, which does not
      look at the edit mode itself; that the button is only there in edit mode
      is `ShownOnlyWhileEditing`, so the lemmas below that do not assume it
      hold of every sequence of events, reachable or not. */
  function Step(s: EditorState, e: EditorEvent): EditorState
  {
    match e
    case DeletePressed =>
      if s.confirmDeletion then s.(deleteCalls := s.deleteCalls + 1)
      else s.(confirmDeletion := true)
    case EditingChanged(editing) =>
      EditorState(editing, if editing then s.confirmDeletion else false, s.deleteCalls)
  }

  /** The state after a sequence of events, oldest first. */
  function Run(s: EditorState, evs: seq<EditorEvent>): EditorState
    decreases |evs|
  {
    if evs == [] then s else Step(Run(s, evs[..|evs| - 1]), evs[|evs| - 1])
  }

  /** How many presses of the delete button `evs` holds. */
  function Presses(evs: seq<EditorEvent>): nat
    decreases |evs|
  {
    if evs == [] then 0
    else Presses(evs[..|evs| - 1]) + if evs[|evs| - 1] == DeletePressed then 1 else 0
  }

  /** Some press in `evs` came after the last time edit mode was left. */
  ghost predicate ArmedBy(evs: seq<EditorEvent>)
  {
    exists i :: 0 <= i < |evs| && evs[i] == DeletePressed &&
      forall j :: i < j < |evs| ==> evs[j] != EditingChanged(false)
  }

  function Label(confirmDeletion: bool): (r: ButtonLabel)
    ensures r == TrashIcon <==> !confirmDeletion
  {
    if !confirmDeletion then TrashIcon else DeleteText
  }

  /** Leaving edit mode always disarms; entering it keeps the flag; neither
      calls the callback. */
  lemma EditModeChange(s: EditorState, editing: bool)
    ensures var t := Step(s, EditingChanged(editing));
      t.isEditing == editing && t.deleteCalls == s.deleteCalls &&
      t.confirmDeletion == (editing && s.confirmDeletion)
  {
  }

  /** The button is armed exactly when some press happened since edit mode
      was last left. */
  lemma {:induction false} ArmedIffPressedSinceLeaving(editing: bool, evs: seq<EditorEvent>)
    ensures Run(Initial(editing), evs).confirmDeletion <==> ArmedBy(evs)
    decreases |evs|
  {
    if evs == [] {
      return;
    }
    var p, e := evs[..|evs| - 1], evs[|evs| - 1];
    ArmedIffPressedSinceLeaving(editing, p);
    match e
    case DeletePressed =>
      assert evs[|evs| - 1] == DeletePressed;
    case EditingChanged(true) =>
      if ArmedBy(p) {
        var i :| 0 <= i < |p| && p[i] == DeletePressed &&
          forall j :: i < j < |p| ==> p[j] != EditingChanged(false);
        assert evs[i] == DeletePressed;
      }
      if ArmedBy(evs) {
        var i :| 0 <= i < |evs| && evs[i] == DeletePressed &&
          forall j :: i < j < |evs| ==> evs[j] != EditingChanged(false);
        assert p[i] == DeletePressed;
      }
    case EditingChanged(false) =>
  }

  /** A press calls `handleDelete` exactly when an earlier press armed the
      button and edit mode has not been left since. */
  lemma HandleDeleteNeedsArming(editing: bool, evs: seq<EditorEvent>)
    ensures var s := Run(Initial(editing), evs);
      Step(s, DeletePressed).deleteCalls == s.deleteCalls + if ArmedBy(evs) then 1 else 0
  {
    ArmedIffPressedSinceLeaving(editing, evs);
  }

  /** Every call of `handleDelete` needs a press of its own plus an earlier
      arming press: the callback runs strictly fewer times than the button is
      pressed, and never on the first press. */
  lemma {:induction false} FewerDeletesThanPresses(editing: bool, evs: seq<EditorEvent>)
    ensures var s := Run(Initial(editing), evs);
      s.deleteCalls + (if s.confirmDeletion then 1 else 0) <= Presses(evs) &&
      (s.deleteCalls > 0 ==> s.deleteCalls < Presses(evs))
    decreases |evs|
  {
    if evs != [] {
      FewerDeletesThanPresses(editing, evs[..|evs| - 1]);
    }
  }

  /** Every press in `evs` happens while the view is in edit mode, where the
      button is shown. */
  ghost predicate ShownOnlyWhileEditing(editing: bool, evs: seq<EditorEvent>)
  {
    forall i :: 0 <= i < |evs| && evs[i] == DeletePressed ==> Run(Initial(editing), evs[..i]).isEditing
  }

  /** When the button is only pressed where it is shown, it is never armed
      outside edit mode. */
  lemma {:induction false} ArmedOnlyWhileEditing(editing: bool, evs: seq<EditorEvent>)
    requires ShownOnlyWhileEditing(editing, evs)
    ensures Run(Initial(editing), evs).confirmDeletion ==> Run(Initial(editing), evs).isEditing
    decreases |evs|
  {
    if evs != [] {
      var p := evs[..|evs| - 1];
      forall i | 0 <= i < |p| && p[i] == DeletePressed
        ensures Run(Initial(editing), p[..i]).isEditing
      {
        assert evs[i] == DeletePressed && evs[..i] == p[..i];
      }
      ArmedOnlyWhileEditing(editing, p);
      assert evs[..|evs| - 1] == p;
    }
  }

  class FlashcardEditView {
    var isEditing: bool
    var confirmDeletion: bool
    /** How many times the `handleDelete` callback has been called. */
    var deleteCalls: nat

    function State(): EditorState
      reads this
    {
      EditorState(isEditing, confirmDeletion, deleteCalls)
    }

    constructor (isEditing: bool)
      ensures State() == Initial(isEditing)
    {
      this.isEditing := isEditing;
      confirmDeletion := false;
      deleteCalls := 0;
    }

    /** The label of the delete button. */
    function ButtonLabel(): ButtonLabel
      reads this
    {
      Label(confirmDeletion)
    }

    /** `internalHandleDelete`: arm on the first press, delete on the next.
        The button that calls it is only shown in edit mode. */
    method InternalHandleDelete()
      requires isEditing
      modifies this
      ensures State() == Step(old(State()), DeletePressed)
    {
      if confirmDeletion {
        deleteCalls := deleteCalls + 1;
      } else {
        confirmDeletion := true;
      }
    }

    /** The `onChange(of: isEditing)` handler. */
    method EditingChanged(editing: bool)
      modifies this
      ensures State() == Step(old(State()), EditorEvent.EditingChanged(editing))
    {
      isEditing := editing;
      if !isEditing {
        confirmDeletion := false;
      }
    }
  }
}
