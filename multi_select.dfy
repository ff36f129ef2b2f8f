/**
 * The multi-select combobox of the order form. Its own state is whether the dropdown
 * is open, the text typed and the options left by the filter; the selection is the
 * parent's, received as a prop and replaced through `onChange`. Here the parent is
 * assumed to store every value it receives, so the selection is a field that
 * `onChange` reassigns.
 */
module MultiSelect {
  import opened Values
  import opened Strings
  import opened ComboItems

  class MultiSelectCombobox {
    const keys: Keys
    const allowCreate: bool
    const caseSensitive: bool
    /** Whether an `onCreateNew` function was passed. */
    const hasOnCreateNew: bool

    var options: seq<Item>
    var selectedItems: seq<Item>
    var isOpen: bool
    var inputValue: string
    var filteredOptions: seq<Item>

    /** Every item carries its keys, and the filtered options are drawn from the options. */
    ghost predicate Valid()
      reads this
    {
      && AllKeyed(options, keys)
      && AllKeyed(selectedItems, keys)
      && forall i :: 0 <= i < |filteredOptions| ==> filteredOptions[i] in options
    }

    constructor (keys: Keys, allowCreate: bool, caseSensitive: bool, hasOnCreateNew: bool,
                 options: seq<Item>, selectedItems: seq<Item>)
      requires AllKeyed(options, keys) && AllKeyed(selectedItems, keys)
      ensures Valid()
      ensures this.keys == keys && this.allowCreate == allowCreate
      ensures this.caseSensitive == caseSensitive && this.hasOnCreateNew == hasOnCreateNew
      ensures this.options == options && this.selectedItems == selectedItems
      ensures !isOpen && inputValue == "" && filteredOptions == options
    {
      this.keys := keys;
      this.allowCreate := allowCreate;
      this.caseSensitive := caseSensitive;
      this.hasOnCreateNew := hasOnCreateNew;
      this.options := options;
      this.selectedItems := selectedItems;
      isOpen := false;
      inputValue := "";
      filteredOptions := options;
    }

    /** The effect on a new `options` prop: the filter starts over from all of them. */
    method SetOptions(newOptions: seq<Item>)
      requires Valid() && AllKeyed(newOptions, keys)
      modifies this
      ensures Valid()
      ensures options == newOptions && filteredOptions == newOptions
      ensures selectedItems == old(selectedItems) && isOpen == old(isOpen) && inputValue == old(inputValue)
    {
      options := newOptions;
      filteredOptions := newOptions;
    }

    /** `handleInputChange`. */
    method InputChange(newValue: string)
      requires Valid()
      modifies this
      ensures Valid()
      ensures inputValue == newValue && isOpen
      ensures filteredOptions == FilterOptions(options, newValue, keys, caseSensitive)
      ensures options == old(options) && selectedItems == old(selectedItems)
    {
      inputValue := newValue;
      filteredOptions := FilterOptions(options, newValue, keys, caseSensitive);
      isOpen := true;
    }

    /** `selectOption`. */
    method SelectOption(option: Item)
      requires Valid() && Keyed(option, keys)
      modifies this
      ensures Valid()
      ensures selectedItems == WithOption(old(selectedItems), option, keys)
      ensures DistinctDisplay(old(selectedItems), keys) ==> DistinctDisplay(selectedItems, keys)
      ensures DisplayIn(selectedItems, DisplayText(option, keys), keys)
      ensures inputValue == "" && !isOpen && filteredOptions == options && options == old(options)
    {
      var displayText := DisplayText(option, keys);
      if !DisplayIn(selectedItems, displayText, keys) {
        selectedItems := selectedItems + [option];
      }
      inputValue := "";
      isOpen := false;
      filteredOptions := options;
    }

    /** `createNewOption`; `requested` is the name handed to `onCreateNew`, if it was called. */
    method CreateNewOption() returns (requested: Option<string>)
      requires Valid()
      modifies this
      ensures Valid()
      ensures !isOpen && inputValue == "" && options == old(options)
      ensures Trim(old(inputValue)) == "" ==>
                requested.None? && selectedItems == old(selectedItems) && filteredOptions == old(filteredOptions)
      ensures Trim(old(inputValue)) != "" && hasOnCreateNew ==>
                requested == Some(Trim(old(inputValue)))
                && selectedItems == old(selectedItems) && filteredOptions == old(filteredOptions)
      ensures Trim(old(inputValue)) != "" && !hasOnCreateNew ==>
                requested.None? && filteredOptions == options
                && selectedItems == WithOption(old(selectedItems), Text(Trim(old(inputValue))), keys)
    {
      requested := None;
      isOpen := false;
      var newProduct := Trim(inputValue);
      if newProduct != "" {
        if hasOnCreateNew {
          requested := Some(newProduct);
        } else {
          SelectOption(Text(newProduct));
        }
      }
      inputValue := "";
    }

    /** `removeSelectedItem`. */
    method RemoveSelectedItem(item: Item)
      requires Valid() && Keyed(item, keys)
      modifies this
      ensures Valid()
      ensures selectedItems == WithoutDisplay(old(selectedItems), item, keys)
      ensures !DisplayIn(selectedItems, DisplayText(item, keys), keys)
      ensures options == old(options) && isOpen == old(isOpen)
      ensures inputValue == old(inputValue) && filteredOptions == old(filteredOptions)
    {
      selectedItems := WithoutDisplay(selectedItems, item, keys);
    }

    /** `isNewOption` on the current state. */
    predicate IsNewOption()
      reads this
    {
      IsNewForMulti(inputValue, allowCreate, options, selectedItems, keys)
    }

    /** `handleKeyDown`. */
    method KeyDown(key: Key) returns (requested: Option<string>)
      requires Valid()
      modifies this
      ensures Valid()
      ensures options == old(options)
      ensures key == Enter && old(isOpen) && old(filteredOptions) != [] ==>
                requested.None? && !isOpen && inputValue == "" && filteredOptions == options
                && selectedItems == WithOption(old(selectedItems), old(filteredOptions)[0], keys)
      ensures key == Enter && old(isOpen) && old(filteredOptions) == [] && old(IsNewOption()) ==>
                && !isOpen && inputValue == ""
                && (hasOnCreateNew ==> requested == Some(Trim(old(inputValue))) && selectedItems == old(selectedItems)
                                       && filteredOptions == old(filteredOptions))
                && (!hasOnCreateNew ==> requested.None? && selectedItems == old(selectedItems) + [Text(Trim(old(inputValue)))]
                                        && filteredOptions == options)
      ensures key == Enter && old(isOpen) && old(filteredOptions) == [] && !old(IsNewOption()) ==>
                requested.None? && unchanged(this)
      ensures key == Enter && !old(isOpen) ==>
                requested.None? && isOpen && selectedItems == old(selectedItems) && inputValue == old(inputValue)
                && filteredOptions == old(filteredOptions)
      ensures key == Escape ==>
                requested.None? && !isOpen && selectedItems == old(selectedItems) && inputValue == old(inputValue)
                && filteredOptions == old(filteredOptions)
      ensures key == ArrowDown ==>
                requested.None? && isOpen && selectedItems == old(selectedItems) && inputValue == old(inputValue)
                && filteredOptions == old(filteredOptions)
      ensures key == OtherKey ==> requested.None? && unchanged(this)
    {
      requested := None;
      match key {
        case Enter =>
          if isOpen {
            if |filteredOptions| > 0 {
              SelectOption(filteredOptions[0]);
            } else if IsNewOption() {
              NewEntryIsAdded(inputValue, allowCreate, options, selectedItems, keys);
              requested := CreateNewOption();
            }
          } else {
            isOpen := true;
          }
        case Escape =>
          isOpen := false;
        case ArrowDown =>
          isOpen := true;
        case OtherKey =>
      }
    }

    /** Focusing the input opens the dropdown. */
    method Focus()
      requires Valid()
      modifies this
      ensures Valid()
      ensures isOpen && unchanged(this`options, this`selectedItems, this`inputValue, this`filteredOptions)
    {
      isOpen := true;
    }

    /** The delayed blur callback, taken as one step: the dropdown closes. */
    method Blur()
      requires Valid()
      modifies this
      ensures Valid()
      ensures !isOpen && unchanged(this`options, this`selectedItems, this`inputValue, this`filteredOptions)
    {
      isOpen := false;
    }

    /** The arrow button flips the dropdown. */
    method Toggle()
      requires Valid()
      modifies this
      ensures Valid()
      ensures isOpen == !old(isOpen)
      ensures unchanged(this`options, this`selectedItems, this`inputValue, this`filteredOptions)
    {
      isOpen := !isOpen;
    }
  }
}
