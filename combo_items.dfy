/**
 * What the two comboboxes share: how an option is shown and searched, the filter that
 * runs as the user types, and the rules for adding and removing a selection by its
 * display text. An option is a string or an object whose fields are named by the
 * optional `displayKey` and `searchKey`.
 */
module ComboItems {
  import opened Values
  import opened Seqs
  import opened Strings

  /** An option: a string, or an object with string fields. */
  datatype Item = Text(s: string) | Record(fields: map<string, string>)

  /** The `searchKey` and `displayKey` props; a missing or empty key is not used. */
  datatype Keys = Keys(searchKey: Option<string>, displayKey: Option<string>)

  /** `String(item)` of a plain object. */
  const ObjectText := "[object Object]"

  /** An object carries the fields its keys name (reading a missing one would throw during search). */
  predicate Keyed(item: Item, keys: Keys) {
    item.Record? ==>
      && (Truthy(keys.displayKey) ==> keys.displayKey.value in item.fields)
      && (Truthy(keys.searchKey) ==> keys.searchKey.value in item.fields)
  }

  predicate AllKeyed(items: seq<Item>, keys: Keys) {
    forall i :: 0 <= i < |items| ==> Keyed(items[i], keys)
  }

  /** `getDisplayText`. */
  function DisplayText(item: Item, keys: Keys): string
    requires Keyed(item, keys)
  {
    match item
    case Text(s) => s
    case Record(fields) => if Truthy(keys.displayKey) then fields[keys.displayKey.value] else ObjectText
  }

  /** `getSearchText`: the search field when there is one, the display text otherwise. */
  function SearchText(item: Item, keys: Keys): string
    requires Keyed(item, keys)
  {
    if item.Record? && Truthy(keys.searchKey) then item.fields[keys.searchKey.value] else DisplayText(item, keys)
  }

  /** A string option shows and is searched by itself; without a search key an object is searched by
      what it shows. */
  lemma SearchFallsBackToDisplay(item: Item, keys: Keys)
    requires Keyed(item, keys)
    requires item.Text? || !Truthy(keys.searchKey)
    ensures SearchText(item, keys) == DisplayText(item, keys)
    ensures item.Text? ==> DisplayText(item, keys) == item.s
  {
  }

  /** The test of the input filter: the search text contains the input, ignoring case unless
      `caseSensitive` is set. */
  predicate Matches(item: Item, input: string, keys: Keys, caseSensitive: bool) {
    && Keyed(item, keys)
    && if caseSensitive then Contains(SearchText(item, keys), input)
       else Contains(Lower(SearchText(item, keys)), Lower(input))
  }

  /** The options left by the input filter, in their original order. */
  function FilterOptions(options: seq<Item>, input: string, keys: Keys, caseSensitive: bool): (r: seq<Item>)
    ensures forall i :: 0 <= i < |r| ==> r[i] in options && Matches(r[i], input, keys, caseSensitive)
    ensures forall i :: 0 <= i < |options| && Matches(options[i], input, keys, caseSensitive) ==> options[i] in r
  {
    Filter(options, (item: Item) => Matches(item, input, keys, caseSensitive))
  }

  /** A further option is offered last exactly when it matches: the filter keeps the options' order. */
  lemma FilterOptionsAppend(options: seq<Item>, option: Item, input: string, keys: Keys, caseSensitive: bool)
    ensures FilterOptions(options + [option], input, keys, caseSensitive) ==
            FilterOptions(options, input, keys, caseSensitive) + (if Matches(option, input, keys, caseSensitive) then [option] else [])
  {
    FilterConcat(options, [option], (item: Item) => Matches(item, input, keys, caseSensitive));
  }

  /** Every string contains the empty string. */
  lemma ContainsEmpty(s: string)
    ensures Contains(s, "")
  {
    ContainsIff(s, "");
    assert OccursAt(s, "", 0);
  }

  /** Clearing the input shows every option again. */
  lemma EmptyInputKeepsAll(options: seq<Item>, keys: Keys, caseSensitive: bool)
    requires AllKeyed(options, keys)
    ensures FilterOptions(options, "", keys, caseSensitive) == options
  {
    forall i | 0 <= i < |options| ensures Matches(options[i], "", keys, caseSensitive) {
      ContainsEmpty(SearchText(options[i], keys));
      ContainsEmpty(Lower(SearchText(options[i], keys)));
      assert Lower("") == "";
    }
    FilterAllPass(options, (item: Item) => Matches(item, "", keys, caseSensitive));
  }

  /** Some item shows `text`. */
  predicate DisplayIn(items: seq<Item>, text: string, keys: Keys) {
    exists i :: 0 <= i < |items| && Keyed(items[i], keys) && DisplayText(items[i], keys) == text
  }

  /** No two items show the same text. */
  predicate DistinctDisplay(items: seq<Item>, keys: Keys) {
    forall i, j :: 0 <= i < j < |items| && Keyed(items[i], keys) && Keyed(items[j], keys) ==>
      DisplayText(items[i], keys) != DisplayText(items[j], keys)
  }

  /** The multi-select's `selectOption`: the option is appended unless an item with its display text
      is already selected. */
  function WithOption(selected: seq<Item>, option: Item, keys: Keys): (r: seq<Item>)
    requires Keyed(option, keys)
    ensures DisplayIn(r, DisplayText(option, keys), keys)
    ensures DistinctDisplay(selected, keys) ==> DistinctDisplay(r, keys)
    ensures DisplayIn(selected, DisplayText(option, keys), keys) ==> r == selected
    ensures !DisplayIn(selected, DisplayText(option, keys), keys) ==> r == selected + [option]
  {
    if DisplayIn(selected, DisplayText(option, keys), keys) then selected
    else
      var r := selected + [option];
      assert r[|selected|] == option;
      r
  }

  /** `removeSelectedItem`: drop every item showing the removed item's text, keep the rest in order. */
  function WithoutDisplay(selected: seq<Item>, item: Item, keys: Keys): (r: seq<Item>)
    requires Keyed(item, keys)
    ensures !DisplayIn(r, DisplayText(item, keys), keys)
    ensures forall i :: 0 <= i < |selected| && !(Keyed(selected[i], keys) && DisplayText(selected[i], keys) == DisplayText(item, keys)) ==>
              selected[i] in r
    ensures forall i :: 0 <= i < |r| ==> r[i] in selected
  {
    Filter(selected, (x: Item) => !(Keyed(x, keys) && DisplayText(x, keys) == DisplayText(item, keys)))
  }

  /** A further selected item stays, last, exactly when it does not show the removed text: the
      others keep their order. */
  lemma WithoutDisplayAppend(selected: seq<Item>, x: Item, item: Item, keys: Keys)
    requires Keyed(item, keys)
    ensures WithoutDisplay(selected + [x], item, keys) ==
            WithoutDisplay(selected, item, keys) +
            (if Keyed(x, keys) && DisplayText(x, keys) == DisplayText(item, keys) then [] else [x])
  {
    FilterConcat(selected, [x], (y: Item) => !(Keyed(y, keys) && DisplayText(y, keys) == DisplayText(item, keys)));
  }

  /** Removing an item just added restores a selection that did not show its text. */
  lemma RemoveUndoesAdd(selected: seq<Item>, option: Item, keys: Keys)
    requires Keyed(option, keys)
    requires !DisplayIn(selected, DisplayText(option, keys), keys)
    ensures WithoutDisplay(WithOption(selected, option, keys), option, keys) == selected
  {
    var p := (x: Item) => !(Keyed(x, keys) && DisplayText(x, keys) == DisplayText(option, keys));
    FilterConcat(selected, [option], p);
    FilterAllPass(selected, p);
    assert Filter([option], p) == [];
  }

  /** The multi-select's `isNewOption`: the trimmed input has text, creating is allowed, and neither
      an option nor a selected item shows it. */
  predicate IsNewForMulti(input: string, allowCreate: bool, options: seq<Item>, selected: seq<Item>, keys: Keys) {
    Trim(input) != "" && allowCreate && !DisplayIn(options, Trim(input), keys) && !DisplayIn(selected, Trim(input), keys)
  }

  /** Creating a new entry the multi-select calls new always grows the selection by that entry. */
  lemma NewEntryIsAdded(input: string, allowCreate: bool, options: seq<Item>, selected: seq<Item>, keys: Keys)
    requires IsNewForMulti(input, allowCreate, options, selected, keys)
    ensures WithOption(selected, Text(Trim(input)), keys) == selected + [Text(Trim(input))]
  {
  }

  /** The single-select's `isNewOption`: as above, but compared with the one selected item. */
  predicate IsNewForSingle(input: string, allowCreate: bool, options: seq<Item>, selected: Item, keys: Keys)
    requires Keyed(selected, keys)
  {
    Trim(input) != "" && allowCreate && !DisplayIn(options, Trim(input), keys) && DisplayText(selected, keys) != Trim(input)
  }

  /** The keys the comboboxes react to. */
  datatype Key = Enter | Escape | ArrowDown | OtherKey
}
