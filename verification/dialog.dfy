/**
 * The keyframe settings dialog of the newest revision
 * (v0.62.36_strippedBuild_GIF_v039.py): the loop-count stepper, the record
 * the dialog hands back, and how the main window applies the outcome to
 * the keyframe map.
 */
module KeyframeDialog {
  import opened Keyframes

  /** The largest loop count the stepper allows. */
  const MaxLoop: int := 9

  function Max(a: int, b: int): int { if a < b then b else a }
  function Min(a: int, b: int): int { if a < b then a else b }

  /** `max(0, min(9, current_val + delta))`. */
  function StepLoopCount(value: int, delta: int): (r: int)
    ensures 0 <= r <= MaxLoop
    ensures 0 <= value + delta <= MaxLoop ==> r == value + delta
    ensures value + delta < 0 ==> r == 0
    ensures MaxLoop < value + delta ==> r == MaxLoop
  {
    Max(0, Min(MaxLoop, value + delta))
  }

  /** Stepping from a count already in range never leaves the range, and a step back undoes a step that stayed inside it. */
  lemma StepLoopCountUndo(value: int, delta: int)
    requires 0 <= value <= MaxLoop && 0 <= value + delta <= MaxLoop
    ensures StepLoopCount(StepLoopCount(value, delta), -delta) == value
  {
  }

  /**
   * The record `get_data` returns: an empty name is replaced by the
   * placeholder (the generated motion name of a new keyframe) when there
   * is one.
   */
  function DialogData(nameText: string, placeholder: string, kind: int, loop: int, locked: bool): (r: Keyframe)
    ensures r.kind == kind && r.loop == loop && r.locked == locked
    ensures nameText != [] ==> r.name == nameText
    ensures nameText == [] ==> r.name == placeholder
  {
    Keyframe(if nameText == [] && placeholder != [] then placeholder else nameText, kind, loop, locked)
  }

  /**
   * The type button checked once `_populate_data` has run: the button of
   * the record's type, Start for a type without a button, and Start again
   * for a locked Middle key, because checking the locked box runs
   * `_on_locked_changed`, which moves a checked Middle button to Start.
   */
  function InitialKind(data: Keyframe): (k: int)
    ensures k in {START, MIDDLE, END}
    ensures data.locked ==> k != MIDDLE
    ensures data.kind == START || data.kind == END ==> k == data.kind
    ensures data.kind == MIDDLE ==> (k == MIDDLE <==> !data.locked)
    ensures data.kind !in {START, MIDDLE, END} ==> k == START
  {
    var checkedButton := if data.kind in {START, MIDDLE, END} then data.kind else START;
    if data.locked && checkedButton == MIDDLE then START else checkedButton
  }

  /** The record a dialog is opened on: none for a new keyframe. */
  datatype Editing = NewKey | Existing(data: Keyframe)

  /** The widgets of the dialog whose values reach the returned record. */
  class SettingsDialog {
    /** `name_input.text()` */
    var nameText: string
    /** `placeholder_text`, empty when there is none */
    var placeholder: string
    /** `key_type_button_group.checkedId()` */
    var kind: int
    /** `int(loop_value_label.text())` */
    var loopValue: int
    /** `locked_checkbox.isChecked()` */
    var locked: bool

    /**
     * `__init__` with `_populate_data` and `_update_ui_states`: the fields
     * come from the record being edited (or the defaults of a new one); the
     * checked type button is `InitialKind` of that record; the name field
     * then shows "(잠김)" for a locked key, is cleared for an End key, and
     * shows "(종료 키프레임)" for the End key of a simple_end segment.
     */
    constructor (current: Editing, placeholderText: string, isSimpleEnd: bool)
      ensures placeholder == placeholderText
      ensures current.Existing? ==> loopValue == current.data.loop && locked == current.data.locked
      ensures current.Existing? ==> kind == InitialKind(current.data)
      ensures current.NewKey? ==> kind == START && loopValue == 0 && !locked
      ensures nameText == (
        if locked then "(\U{C7A0}\U{AE40})"
        else if isSimpleEnd then "(\U{C885}\U{B8CC} \U{D0A4}\U{D504}\U{B808}\U{C784})"
        else if kind == END then ""
        else if current.Existing? then current.data.name
        else "")
    {
      var data := if current.Existing? then current.data else Keyframe("", START, 0, false);
      nameText := data.name;
      placeholder := placeholderText;
      loopValue := data.loop;
      kind := if data.kind in {START, MIDDLE, END} then data.kind else START;
      locked := data.locked;
      new;
      // `locked_checkbox.setChecked(True)` emits `toggled`, handled by `_on_locked_changed`
      if locked && kind == MIDDLE {
        kind := START;
      }
      if locked {
        nameText := "(\U{C7A0}\U{AE40})";
      } else {
        if kind == END {
          nameText := "";
        }
        if isSimpleEnd {
          nameText := "(\U{C885}\U{B8CC} \U{D0A4}\U{D504}\U{B808}\U{C784})";
        }
      }
    }

    /** `_change_loop_count(delta)`: the stepper is inert while the key is locked. */
    method ChangeLoopCount(delta: int)
      modifies this`loopValue
      ensures loopValue == if locked then old(loopValue) else StepLoopCount(old(loopValue), delta)
    {
      if locked {
        return;
      }
      var currentValue := loopValue;
      loopValue := Max(0, Min(MaxLoop, currentValue + delta));
    }

    /** `get_data` */
    function GetData(): Keyframe
      reads this
    {
      DialogData(nameText, placeholder, kind, loopValue, locked)
    }
  }

  /** How the user closes the dialog: cancelled, deletion confirmed, or accepted with the widget values at that moment. */
  datatype Answer = Cancel | Delete | Accept(nameText: string, kind: int, loop: int, locked: bool)

  /** What the main window receives from a dialog whose placeholder was `placeholder`. */
  function OutcomeOf(answer: Answer, placeholder: string): Outcome
  {
    match answer
    case Cancel => Cancelled
    case Delete => Deleted
    case Accept(nameText, kind, loop, locked) => Confirmed(DialogData(nameText, placeholder, kind, loop, locked))
  }

  /** How the dialog was closed and what it handed back. */
  datatype Outcome = Cancelled | Deleted | Confirmed(data: Keyframe)

  /**
   * The keyframe map after `_open_keyframe_dialog` applies the outcome to
   * the key `frame`: a deletion, or a record with an empty name that is not
   * an End key, removes the key; any other record is stored under it.
   */
  function Applied(kf: KeyMap, frame: int, outcome: Outcome): (r: KeyMap)
    ensures forall k :: k != frame ==> (k in r <==> k in kf)
    ensures forall k :: k != frame && k in r ==> r[k] == kf[k]
    ensures outcome.Cancelled? ==> r == kf
    ensures outcome.Deleted? ==> frame !in r
    ensures outcome.Confirmed? ==> (frame in r <==> outcome.data.name != [] || outcome.data.kind == END)
    ensures outcome.Confirmed? && frame in r ==> r[frame] == outcome.data
  {
    match outcome
    case Cancelled => kf
    case Deleted => kf - {frame}
    case Confirmed(data) =>
      if data.name == [] && data.kind != END then kf - {frame} else kf[frame := data]
  }

  /** Removing a key the map does not hold leaves it as it was. */
  lemma RemoveAbsent(kf: KeyMap, frame: int)
    requires frame !in kf
    ensures kf - {frame} == kf
  {
  }

  /** Applying the same outcome twice is the same as applying it once. */
  lemma AppliedIdempotent(kf: KeyMap, frame: int, outcome: Outcome)
    ensures Applied(Applied(kf, frame, outcome), frame, outcome) == Applied(kf, frame, outcome)
  {
    var once := Applied(kf, frame, outcome);
    assert Applied(once, frame, outcome).Keys == once.Keys;
  }

  /**
   * A new keyframe confirmed with an empty name field and a non-empty
   * placeholder is always stored, under the placeholder name.
   */
  lemma PlaceholderKeepsNewKey(kf: KeyMap, frame: int, placeholder: string, kind: int, loop: int, locked: bool)
    requires placeholder != []
    ensures var r := Applied(kf, frame, Confirmed(DialogData([], placeholder, kind, loop, locked)));
      frame in r && r[frame].name == placeholder
  {
  }
}
