/**
 * The single-select combobox of the order form (client, status and similar fields).
 * Its own state is the open flag, the text typed and the filtered options; the
 * selected item is the parent's, replaced through `onChange` and assumed stored as
 * received. The effect that copies the selection's display text into the input
 * whenever the dropdown is closed runs at the end of every handler here, so its
 * outcome is an invariant of the object.
 */
module SingleSelect {
  import opened Values
  import opened Strings
  import opened ComboItems

  /** JavaScript truthiness of the selection: a non-empty string, or any object. */
  predicate Selected(item: Item) {
    item.Record? || item.s != ""
  }

  class SingleSelectCombobox {
    const keys: Keys
    const allowCreate: bool
    const caseSensitive: bool
    /** Whether an `onCreateNew` function was passed. */
    const hasOnCreateNew: bool

    var options: seq<Item>
    /** The `selectedItem` prop; the empty string when nothing is selected. */
    var selectedItem: Item
    var isOpen: bool
    var inputValue: string
    var filteredOptions: seq<Item>

    /** Items carry their keys, the filtered options come from the options, and a closed dropdown
        with a selection shows the selection's text. */
    ghost predicate Valid()
      reads this
    {
      && AllKeyed(options, keys)
      && Keyed(selectedItem, keys)
      && (forall i :: 0 <= i < |filteredOptions| ==> filteredOptions[i] in options)
      && Synced()
    }

    /** The outcome of the sync effect. */
    predicate Synced()
      reads this
    {
      Keyed(selectedItem, keys) && !isOpen && Selected(selectedItem) ==> inputValue == DisplayText(selectedItem, keys)
    }

    /** The sync effect: with the dropdown closed, the input shows the selected item. */
    method SyncInput()
      requires Keyed(selectedItem, keys)
      modifies this`inputValue
      ensures Synced()
      ensures !(!isOpen && Selected(selectedItem)) ==> inputValue == old(inputValue)
    {
      if Selected(selectedItem) && !isOpen {
        inputValue := DisplayText(selectedItem, keys);
      }
    }

    constructor (keys: Keys, allowCreate: bool, caseSensitive: bool, hasOnCreateNew: bool,
                 options: seq<Item>, selectedItem: Item)
      requires AllKeyed(options, keys) && Keyed(selectedItem, keys)
      ensures Valid()
      ensures this.keys == keys && this.allowCreate == allowCreate
      ensures this.caseSensitive == caseSensitive && this.hasOnCreateNew == hasOnCreateNew
      ensures this.options == options && this.selectedItem == selectedItem
      ensures !isOpen && filteredOptions == options
      ensures inputValue == if Selected(selectedItem) then DisplayText(selectedItem, keys) else ""
    {
      this.keys := keys;
      this.allowCreate := allowCreate;
      this.caseSensitive := caseSensitive;
      this.hasOnCreateNew := hasOnCreateNew;
      this.options := options;
      this.selectedItem := selectedItem;
      isOpen := false;
      inputValue := "";
      filteredOptions := options;
      new;
      SyncInput();
    }

    /** The effect on a new `options` prop. */
    method SetOptions(newOptions: seq<Item>)
      requires Valid() && AllKeyed(newOptions, keys)
      modifies this
      ensures Valid()
      ensures options == newOptions && filteredOptions == newOptions
      ensures selectedItem == old(selectedItem) && isOpen == old(isOpen) && inputValue == old(inputValue)
    {
      options := newOptions;
      filteredOptions := newOptions;
    }

    /** A new `selectedItem` prop from the parent. */
    method SetSelectedItem(item: Item)
      requires Valid() && Keyed(item, keys)
      modifies this
      ensures Valid()
      ensures selectedItem == item && isOpen == old(isOpen)
      ensures !isOpen && Selected(item) ==> inputValue == DisplayText(item, keys)
      ensures isOpen || !Selected(item) ==> inputValue == old(inputValue)
      ensures options == old(options) && filteredOptions == old(filteredOptions)
    {
      selectedItem := item;
      SyncInput();
    }

    /** `handleInputChange`. */
    method InputChange(newValue: string)
      requires Valid()
      modifies this
      ensures Valid()
      ensures inputValue == newValue && isOpen
      ensures filteredOptions == FilterOptions(options, newValue, keys, caseSensitive)
      ensures options == old(options) && selectedItem == old(selectedItem)
    {
      inputValue := newValue;
      filteredOptions := FilterOptions(options, newValue, keys, caseSensitive);
      isOpen := true;
    }

    /** `selectOption`: the option becomes the selection and its text the input. */
    method SelectOption(option: Item)
      requires Valid() && Keyed(option, keys)
      modifies this
      ensures Valid()
      ensures selectedItem == option && inputValue == DisplayText(option, keys)
      ensures !isOpen && filteredOptions == options && options == old(options)
    {
      inputValue := DisplayText(option, keys);
      selectedItem := option;
      isOpen := false;
      filteredOptions := options;
      SyncInput();
    }

    /** `createNewOption`; `requested` is the name handed to `onCreateNew`, if it was called. */
    method CreateNewOption() returns (requested: Option<string>)
      requires Valid()
      modifies this
      ensures Valid()
      ensures !isOpen && options == old(options) && filteredOptions == old(filteredOptions)
      ensures Trim(old(inputValue)) != "" ==>
                && selectedItem == Text(Trim(old(inputValue)))
                && inputValue == Trim(old(inputValue))
                && requested == (if hasOnCreateNew then Some(Trim(old(inputValue))) else None)
      ensures Trim(old(inputValue)) == "" ==>
                && requested.None? && selectedItem == old(selectedItem)
                && inputValue == (if Selected(selectedItem) then DisplayText(selectedItem, keys) else old(inputValue))
    {
      requested := None;
      isOpen := false;
      var newItem := Trim(inputValue);
      if newItem != "" {
        if hasOnCreateNew {
          requested := Some(newItem);
        }
        selectedItem := Text(newItem);
        inputValue := newItem;
      }
      SyncInput();
    }

    /** `clearSelection`. */
    method ClearSelection()
      requires Valid()
      modifies this
      ensures Valid()
      ensures selectedItem == Text("") && inputValue == "" && !Selected(selectedItem)
      ensures isOpen == old(isOpen) && options == old(options) && filteredOptions == old(filteredOptions)
    {
      inputValue := "";
      selectedItem := Text("");
      SyncInput();
    }

    /** `isNewOption` on the current state. */
    predicate IsNewOption()
      reads this
      requires Keyed(selectedItem, keys)
    {
      IsNewForSingle(inputValue, allowCreate, options, selectedItem, keys)
    }

    /** `handleKeyDown`. */
    method KeyDown(key: Key) returns (requested: Option<string>)
      requires Valid()
      modifies this
      ensures Valid()
      ensures options == old(options)
      ensures key == Enter && old(isOpen) && old(filteredOptions) != [] ==>
                requested.None? && !isOpen && selectedItem == old(filteredOptions)[0]
                && inputValue == DisplayText(selectedItem, keys) && filteredOptions == options
      ensures key == Enter && old(isOpen) && old(filteredOptions) == [] && old(IsNewOption()) ==>
                && !isOpen && selectedItem == Text(Trim(old(inputValue))) && inputValue == Trim(old(inputValue))
                && requested == (if hasOnCreateNew then Some(Trim(old(inputValue))) else None)
                && filteredOptions == old(filteredOptions)
      ensures key == Enter && old(isOpen) && old(filteredOptions) == [] && !old(IsNewOption()) ==>
                requested.None? && unchanged(this)
      ensures key == Enter && !old(isOpen) ==>
                requested.None? && isOpen && selectedItem == old(selectedItem) && inputValue == old(inputValue)
                && filteredOptions == old(filteredOptions)
      ensures key == Escape ==>
                requested.None? && !isOpen && selectedItem == old(selectedItem)
                && inputValue == DisplayText(selectedItem, keys) && filteredOptions == old(filteredOptions)
      ensures key == ArrowDown ==>
                requested.None? && isOpen && selectedItem == old(selectedItem) && inputValue == old(inputValue)
                && filteredOptions == old(filteredOptions)
      ensures key == OtherKey ==> requested.None? && unchanged(this)
    {
      requested := None;
      match key {
        case Enter =>
          if isOpen {
            if |filteredOptions| > 0 {
              SelectOption(filteredOptions[0]);
            } else if IsNewOption() {
              requested := CreateNewOption();
            }
          } else {
            isOpen := true;
          }
        case Escape =>
          isOpen := false;
          inputValue := DisplayText(selectedItem, keys);
        case ArrowDown =>
          isOpen := true;
        case OtherKey =>
      }
    }

    /** `handleFocus`: open the dropdown on an empty input, ready for a search. */
    method Focus()
      requires Valid()
      modifies this
      ensures Valid()
      ensures isOpen && inputValue == ""
      ensures selectedItem == old(selectedItem) && options == old(options) && filteredOptions == old(filteredOptions)
    {
      isOpen := true;
      inputValue := "";
    }

    /** The delayed blur callback, taken as one step: close, and show the selection or nothing. */
    method Blur()
      requires Valid()
      modifies this
      ensures Valid()
      ensures !isOpen
      ensures inputValue == if Selected(selectedItem) then DisplayText(selectedItem, keys) else ""
      ensures selectedItem == old(selectedItem) && options == old(options) && filteredOptions == old(filteredOptions)
    {
      isOpen := false;
      if !Selected(selectedItem) {
        inputValue := "";
      } else {
        inputValue := DisplayText(selectedItem, keys);
      }
      SyncInput();
    }

    /** The arrow button flips the dropdown; closing it lets the sync effect restore the text. */
    method Toggle()
      requires Valid()
      modifies this
      ensures Valid()
      ensures isOpen == !old(isOpen)
      ensures !isOpen && Selected(selectedItem) ==> inputValue == DisplayText(selectedItem, keys)
      ensures isOpen || !Selected(selectedItem) ==> inputValue == old(inputValue)
      ensures selectedItem == old(selectedItem) && options == old(options) && filteredOptions == old(filteredOptions)
    {
      isOpen := !isOpen;
      SyncInput();
    }
  }
}
