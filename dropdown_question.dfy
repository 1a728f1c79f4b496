/** The dropdown widget: its open/closed state machine and the label on its button. */
module DropdownQuestion {
  import opened Wrappers

  datatype DropdownOption = DropdownOption(value: string, caption: string)

  const DefaultPlaceholder: string := "Select an option..."

  /** The first option whose value is `value` (`options.find`). */
  function FindOption(options: seq<DropdownOption>, value: string): (r: Option<nat>)
    ensures r.Some? ==> r.value < |options| && options[r.value].value == value
    ensures r.Some? ==> forall j :: 0 <= j < r.value ==> options[j].value != value
    ensures r.None? ==> forall j :: 0 <= j < |options| ==> options[j].value != value
  {
    if options == [] then None
    else if options[0].value == value then Some(0)
    else match FindOption(options[1..], value)
      case Some(k) => Some(k + 1)
      case None => None
  }

  /**
   * `selectedOption?.label || placeholder`: the label of the first option
   * holding the current value, unless there is none or its label is empty.
   */
  function ButtonText(options: seq<DropdownOption>, value: string, placeholder: string): (r: string)
    ensures r == placeholder || exists i :: 0 <= i < |options| && options[i].value == value && r == options[i].caption
    ensures r != placeholder ==> r != ""
    ensures (forall j :: 0 <= j < |options| ==> options[j].value != value) ==> r == placeholder
    ensures forall i :: (0 <= i < |options| && options[i].value == value && options[i].caption != ""
      && (forall j :: 0 <= j < i ==> options[j].value != value)) ==> r == options[i].caption
  {
    match FindOption(options, value)
    case Some(i) => if options[i].caption != "" then options[i].caption else placeholder
    case None => placeholder
  }

  /** The widget's `isOpen` state and the handlers that change it. */
  class Dropdown {
    var isOpen: bool

    constructor ()
      ensures !isOpen
    {
      isOpen := false;
    }

    /** A click on the button toggles the menu. */
    method Click()
      modifies this
      ensures isOpen == !old(isOpen)
    {
      isOpen := !isOpen;
    }

    /** Choosing an option (only offered while open) emits its value and closes the menu. */
    method Select(optionValue: string) returns (emitted: string)
      requires isOpen
      modifies this
      ensures emitted == optionValue && !isOpen
    {
      emitted := optionValue;
      isOpen := false;
    }

    /** Escape closes, Enter or Space toggles, any other key changes nothing. */
    method KeyDown(key: string)
      modifies this
      ensures key == "Escape" ==> !isOpen
      ensures (key == "Enter" || key == " ") ==> isOpen == !old(isOpen)
      ensures key != "Escape" && key != "Enter" && key != " " ==> isOpen == old(isOpen)
    {
      if key == "Escape" {
        isOpen := false;
      } else if key == "Enter" || key == " " {
        isOpen := !isOpen;
      }
    }

    /**
     * A mousedown anywhere in the document. The listener is registered only
     * while the menu is open, and closes it when the target is outside.
     */
    method MouseDown(insideDropdown: bool)
      modifies this
      ensures isOpen == (old(isOpen) && insideDropdown)
    {
      if isOpen && !insideDropdown {
        isOpen := false;
      }
    }
  }
}
