# OrganizationApp in Dafny

OrganizationApp is a small order-management application for a bakery. An Express backend keeps:

- the product catalog in one JSON file;
- the orders, called events, in another.

A React front end lists, creates and edits the orders, and shows each order's cakes (bolos). This project models the parts of the application that have behaviour worth stating, with the file I/O, React rendering and the query cache stripped away.

- **Backend** (`backend.dfy`). These are the route handlers of `backend/app.js`.
  - Products: `GET /products` lists the active products. `POST /products` rejects a blank name and a case-insensitive duplicate, then appends the new product with the next id.
  - Events: `GET /events` takes an optional `search` filter and an optional `max` tail slice. `GET`, `PUT` and `DELETE /events/:id` find the first event with that id.
  - Each JSON file is the `seq` field of a store class (`ProductStore`, `EventStore`), and the write-back is the assignment to that field.
- **Product strings** (`product_utils.dfy`). An order's product list is stored as one newline-separated string. It is shown as a bullet list or as a short comma-separated preview.
- **Order card** (`event_item.dfy`). This holds the CSS class of each status and the three-source decoder of an order's cakes:
  1. the `bolosDetalhados` JSON array;
  2. the single `produto`/`peso`/`descricao` fields;
  3. the legacy `products` string.

  It also covers how long descriptions and addresses are cut. The result of `JSON.parse` is an input.
- **Comboboxes** (`combo_items.dfy`, `multi_select.dfy`, `single_select.dfy`). These are the two selection widgets of the order form. Each is a class whose fields are the widget's state (`isOpen`, `inputValue`, `filteredOptions`) plus the selection held by the parent. Each handler is a method.
- **Login form** (`auth_form.dfy`). The e-mail and password validators, the per-field error and touched state, and the submit gate.
- **Kanban boards** (`kanban.dfy`, `kanban_columns.dfy`):
  - the production board's `moveCard`, a loop over the columns;
  - the editable board's add and delete of columns, with its five-column cap.
- **Events URL** (`http.dfy`). `fetchEvents` builds its URL by appending the `search` and `max` parameters.

Shared modules:

- `values.dfy`: optional fields and JavaScript truthiness.
- `seqs.dfy`: `filter` and `map`.
- `strings.dfy`: `trim`, `toLowerCase`, `includes`, `split`, `join`, number printing and `parseInt`.

## Model

| member | source | states |
|---|---|---|
| Backend.ActiveProducts | backend/app.js:28-33 | The listing holds exactly the stored products whose `active` flag is set: every listed product is stored and active, and every active stored product is listed |
| Backend.ActiveProductsAppend | backend/app.js:29 | Filtering keeps stored order: after an append, the listing is the old listing followed by the new product when it is active |
| Backend.LowerNameIn | backend/app.js:52-54 | The duplicate test holds exactly when some stored product, active or not, has that lower-cased name |
| Backend.MaxOf | backend/app.js:62 | `Math.max` over the parsed ids: `-Infinity` for no ids, `NaN` as soon as one id is `NaN`, otherwise the largest id, which is one of them |
| Backend.NextProductIdFresh | backend/app.js:62 | On a non-empty catalog of numeric ids from `-Number.MAX_SAFE_INTEGER` up to but not including `Number.MAX_SAFE_INTEGER`, the id the code assigns reads back as the largest id plus one and equals no stored id |
| Backend.EmptyCatalogId | backend/app.js:62 | On an empty catalog the code assigns the id "-Infinity" |
| Backend.NonNumericIdGivesNaN | backend/app.js:62 | One stored id that `parseInt` cannot read makes the assigned id "NaN" |
| Backend.EmptyCatalogIdsCollide | backend/app.js:62 | A catalog started empty gets the ids "-Infinity" and then "NaN", and the third product repeats "NaN" |
| Backend.LargestNumericId | backend/app.js:62 | The corrected maximum is at least 0, bounds every numeric id, and is 0 or one of them |
| Backend.FixedProductIdFresh | backend/app.js:62 | With numeric ids below `Number.MAX_SAFE_INTEGER`, the corrected id reads back as the largest numeric id plus one, equals no stored id, and is "1" for an empty catalog |
| Backend.LargestNumericIsMax | backend/app.js:62 | Over numeric ids whose maximum is not negative, the corrected maximum is `Math.max` |
| Backend.FixedProductIdAgrees | backend/app.js:62 | On a non-empty catalog of numeric ids, not all negative, the corrected id is the id the code assigns |
| Backend.SecondCreateConflicts | backend/app.js:52-68 | After a product is created, a name whose trimmed lower-cased form is the same is reported taken |
| Backend.ProductStore.List | backend/app.js:28-33 | `GET /products` answers the active products |
| Backend.ProductStore.Create | backend/app.js:42-68 | A missing or blank name gives 400 and a taken name 409, each with its message and nothing written. Otherwise exactly one product is appended: the next id, the trimmed name, the category or `personalizado`, active. The stored products are unchanged |
| Backend.SearchFilter | backend/app.js:88-93 | An empty term keeps every event. Otherwise exactly the stored events whose `title description address`, lower-cased, contains the lower-cased term are kept; `SearchFilterAppend` fixes their order |
| Backend.SearchFilterAppend | backend/app.js:88-93 | The search keeps stored order and count: after an append, the result is the old result followed by the new event exactly when it matches (or there is no term) |
| Backend.ApplyMaxKeepsLast | backend/app.js:95-97 | For `0 <= max <= length` the slice is exactly the last `max` events, in stored order |
| Backend.ApplyMaxBeyondLength | backend/app.js:96 | For `max` above the length, the negative start counts back from the end: all events once `max >= 2 * length`, otherwise only the last `max - length` |
| Backend.ListEventsSearchThenLast | backend/app.js:88-110 | With a term and `0 <= max <= matches`, the answer is the projections of the last `max` matching events, in order, each matching the term |
| Backend.ListLastTwoOfFive | backend/app.js:95-110 | Five events with `max=2` and no term list the projections of the last two |
| Backend.IndexOfId | backend/app.js:189 | `findIndex`: the first index whose event has the id, or none exactly when no event has it |
| Backend.WithId | backend/app.js:195-198 | `{id, ...event}`: the body's own id wins over the given one, and every other field is the body's |
| Backend.RoundedRoll | backend/app.js:154 | A random event id is a whole number from 0 to 10000 |
| Backend.CreatedEventIsFound | backend/app.js:153-158 | An appended event whose id no stored event has is the one `GET /events/:id` finds |
| Backend.CollidingIdShadowsCreated | backend/app.js:119 | When the random id collides, the earlier event keeps answering to that id |
| Backend.ReplacedEventIsFound | backend/app.js:189-198 | After a `PUT` whose body has no id, the replaced slot is the one found by the path id |
| Backend.DeletedEventIsGone | backend/app.js:213-219 | With unique ids, the deleted event can no longer be found |
| Backend.EventStore.List | backend/app.js:83-111 | `GET /events` answers the search filter, then the `max` slice, then the projection |
| Backend.EventStore.Get | backend/app.js:113-125 | Answers the first event with the id, or 404 with the message naming the id |
| Backend.EventStore.Create | backend/app.js:132-158 | A missing body or a blank required field gives 400 and writes nothing. Otherwise exactly one record `{id: <random>, ...event}` is appended and the others are untouched |
| Backend.EventStore.Replace | backend/app.js:165-198 | The same 400 checks, then 404 without writing when no event has the id. Otherwise only the matched slot becomes `{id, ...event}` |
| Backend.EventStore.Delete | backend/app.js:207-219 | 404 without writing when no event has the id. Otherwise only the matched slot is removed and the rest keep their order |
| Strings.TrimEmptyIff | backend/app.js:44 | A string is blank after `trim` exactly when all its characters are white space |
| Strings.TrimIdempotent | backend/app.js:53 | Trimming twice is trimming once |
| Strings.ContainsIff | backend/app.js:91 | `includes` holds exactly when the text occurs at some position |
| Strings.ParseIntRoundTrip | backend/app.js:62 | `parseInt` reads back the decimal text of every safe integer (magnitude at most `Number.MAX_SAFE_INTEGER`) |
| Strings.SplitJoin | src/components/util/productUtils.js:7 | Splitting a newline join of newline-free pieces gives the pieces back |
| Strings.SplitAppendPiece | src/components/util/productUtils.js:16 | Splitting `s + sep + x`, for a separator-free `x`, gives the pieces of `s` and then `x` |
| Strings.JoinSplit | src/components/util/productUtils.js:16 | Joining the pieces of a split rebuilds the string |
| ProductUtils.StringToProducts | src/components/util/productUtils.js:14-17 | Every product read back is a non-blank line without a newline; an empty or missing string gives none |
| ProductUtils.StringToProductsLine | src/components/util/productUtils.js:14-17 | A string without a newline reads back as itself, untrimmed, when it has text, and as nothing otherwise |
| ProductUtils.StringToProductsAppend | src/components/util/productUtils.js:14-17 | For every string `s`, `s + "\n" + x` reads back as `s` does, followed by `x` unchanged exactly when `x` has text: lines are kept in order, and only blank ones are dropped |
| ProductUtils.ProductsToStringLines | src/components/util/productUtils.js:5-8 | The stored string's lines are exactly the non-blank entries, untrimmed and in order |
| ProductUtils.KeptHaveNoNewline | src/components/util/productUtils.js:7 | Entries kept by the blank filter contain no newline when the input entries have none |
| ProductUtils.RoundTrip | src/components/util/productUtils.js:1-17 | Reading back a stored list gives its non-blank entries, in order |
| ProductUtils.StoredStringRoundTrip | src/components/util/productUtils.js:5-17 | A stored string with no blank line is rebuilt exactly by reading and storing again |
| ProductUtils.DisplayLines | src/components/util/productUtils.js:23-29 | The display has one line per non-blank entry: "• " followed by the entry, in order |
| ProductUtils.ProductsToStringExample | src/components/util/productUtils.js:1-8 | The documented example: ["Bolo de Chocolate", "Bolo de Cenoura"] is stored as "Bolo de Chocolate\nBolo de Cenoura" |
| ProductUtils.StringToProductsExample | src/components/util/productUtils.js:10-17 | The documented example: "Bolo de Chocolate\nBolo de Cenoura" reads back as ["Bolo de Chocolate", "Bolo de Cenoura"] |
| ProductUtils.PreviewEmptyIff | src/components/util/productUtils.js:35-47 | For every `maxLength`, the preview is empty exactly when no entry is non-blank |
| ProductUtils.PreviewLength | src/components/util/productUtils.js:41-47 | For `maxLength >= 3` (below that an overlong preview is "...", longer than the limit), the preview is at most `maxLength` long. A join that fits is returned whole. One that does not is cut to `maxLength - 3` characters plus "...", exactly `maxLength` in all |
| EventItem.StatusSuffix | src/components/Events/EventItem.jsx:20-32 | The suffix is non-empty exactly for the five known statuses |
| EventItem.StatusSuffixInjective | src/components/Events/EventItem.jsx:20-32 | Distinct known statuses get distinct classes |
| EventItem.DecodeAll | src/components/Events/EventItem.jsx:43-50 | Every decoded cake comes from a truthy entry with `nome` or `produto`, and every such entry gives a cake |
| EventItem.DecodeAllAppend | src/components/Events/EventItem.jsx:43-50 | The cakes follow the array's order, one per usable entry: a further entry adds its decoded cake last exactly when it is usable |
| EventItem.LegacyLines | src/components/Events/EventItem.jsx:70-73 | No line kept from the legacy field is empty |
| EventItem.LegacyLinesLine | src/components/Events/EventItem.jsx:70-73 | A legacy string without a newline gives its trimmed text when that is not empty, and nothing otherwise |
| EventItem.LegacyLinesAppend | src/components/Events/EventItem.jsx:70-73 | For every string `s`, `s + "\n" + x` gives the lines of `s` followed by the trimmed `x` exactly when that is not empty: split, trim, drop empty lines, keep order |
| EventItem.DecodedBolos | src/components/Events/EventItem.jsx:35-83 | Precedence: the detailed array when it yields something, else the single fields when they yield something, else the legacy lines |
| EventItem.ExtractBolos | src/components/Events/EventItem.jsx:35-83 | The three guarded blocks that reassign `bolos` compute exactly that precedence |
| EventItem.DisplayedBolos | src/components/Events/EventItem.jsx:86 | The shown cakes are exactly the decoded cakes whose name has text; `NamedAppend` fixes their order |
| EventItem.NamedAppend | src/components/Events/EventItem.jsx:86 | The name filter keeps the decoded order: a further cake is shown last exactly when its name has text |
| EventItem.SingleFieldShown | src/components/Events/EventItem.jsx:59-64 | With no usable detailed entry, a non-blank `produto` is shown as one cake named by the trimmed text |
| EventItem.StoredProductsShown | src/components/Events/EventItem.jsx:69-86 | A legacy field written by `productsToString` is shown as one cake per non-blank product, named by the trimmed product, in order |
| EventItem.StoredLegacyLines | src/components/Events/EventItem.jsx:69-73 | A stored non-empty product list has text, and its legacy lines are the trimmed entries |
| EventItem.ListedEventsUseLegacyField | src/components/Events/EventItem.jsx:38-69 | A card built from a listed event, which carries neither `produto` nor `bolosDetalhados`, decodes from the legacy field alone |
| EventItem.Truncate | src/components/Events/EventItem.jsx:207-209 | Short text is unchanged. Longer text becomes its first `n` characters plus "...", `n + 3` long |
| EventItem.TruncateIdempotent | src/components/Events/EventItem.jsx:207-209 | Cutting a cut text changes nothing |
| EventItem.DescriptionShown | src/components/Events/EventItem.jsx:196-210 | The observations line appears exactly for a non-empty description, cut at 100 characters |
| EventItem.AddressShown | src/components/Events/EventItem.jsx:215-228 | The address line appears exactly for a non-empty address, cut at 50 characters |
| ComboItems.SearchFallsBackToDisplay | src/components/MultiSelectComboBox/MultiSelectCombobox.jsx:27-38 | A string option is shown and searched as itself. Without a search key, an object is searched by its display text |
| ComboItems.FilterOptions | src/components/MultiSelectComboBox/MultiSelectCombobox.jsx:45-51 | The filter keeps exactly the options whose search text contains the input, ignoring case unless told not to; `FilterOptionsAppend` fixes their order |
| ComboItems.FilterOptionsAppend | src/components/MultiSelectComboBox/MultiSelectCombobox.jsx:45-51 | The filter keeps the options' order and count: a further option is offered last exactly when it matches |
| ComboItems.EmptyInputKeepsAll | src/components/MultiSelectComboBox/MultiSelectCombobox.jsx:45-51 | An empty input keeps every option |
| ComboItems.WithOption | src/components/MultiSelectComboBox/MultiSelectCombobox.jsx:80-91 | The selection is unchanged when some selected item already shows the option's text, and is the selection plus the option otherwise, whether or not the selected texts are distinct. Either way the text is then selected, and distinct display texts stay distinct |
| ComboItems.WithoutDisplay | src/components/MultiSelectComboBox/MultiSelectCombobox.jsx:116-121 | No remaining item shows the removed text, every other item stays, and nothing new appears; `WithoutDisplayAppend` fixes the order |
| ComboItems.WithoutDisplayAppend | src/components/MultiSelectComboBox/MultiSelectCombobox.jsx:116-121 | The others keep their order: a further selected item stays, last, exactly when it does not show the removed text |
| ComboItems.RemoveUndoesAdd | src/components/MultiSelectComboBox/MultiSelectCombobox.jsx:80-121 | Removing an item just added restores the selection |
| ComboItems.NewEntryIsAdded | src/components/MultiSelectComboBox/MultiSelectCombobox.jsx:124-126 | An entry `isNewOption` accepts is always appended when selected |
| MultiSelect.MultiSelectCombobox.constructor | src/components/MultiSelectComboBox/MultiSelectCombobox.jsx:18-20 | Starts closed, with an empty input and every option shown |
| MultiSelect.MultiSelectCombobox.SetOptions | src/components/MultiSelectComboBox/MultiSelectCombobox.jsx:22-24 | New options reset the filtered list to all of them |
| MultiSelect.MultiSelectCombobox.InputChange | src/components/MultiSelectComboBox/MultiSelectCombobox.jsx:41-55 | Stores the input, filters the options by it and opens the dropdown |
| MultiSelect.MultiSelectCombobox.SelectOption | src/components/MultiSelectComboBox/MultiSelectCombobox.jsx:80-97 | Adds the option without duplicating a display text, clears the input, closes the dropdown and shows all options |
| MultiSelect.MultiSelectCombobox.CreateNewOption | src/components/MultiSelectComboBox/MultiSelectCombobox.jsx:100-113 | Closes and clears. A trimmed input with text goes to `onCreateNew` when there is one and is selected otherwise |
| MultiSelect.MultiSelectCombobox.RemoveSelectedItem | src/components/MultiSelectComboBox/MultiSelectCombobox.jsx:116-121 | Removes every selected item showing the removed item's text, nothing else changes |
| MultiSelect.MultiSelectCombobox.KeyDown | src/components/MultiSelectComboBox/MultiSelectCombobox.jsx:58-77 | Enter while open selects the first filtered option, or else creates a new entry when `isNewOption` holds. Selecting resets the filtered options to all options; creating through `onCreateNew` leaves them. Enter while closed opens. Escape closes. ArrowDown opens. Those three leave the filtered options, the input and the selection as they were |
| MultiSelect.MultiSelectCombobox.Blur | src/components/MultiSelectComboBox/MultiSelectCombobox.jsx:129-134 | The blur callback closes the dropdown and changes nothing else |
| MultiSelect.MultiSelectCombobox.Focus | src/components/MultiSelectComboBox/MultiSelectCombobox.jsx:305 | Focus opens the dropdown and changes nothing else |
| MultiSelect.MultiSelectCombobox.Toggle | src/components/MultiSelectComboBox/MultiSelectCombobox.jsx:313 | The arrow button flips the dropdown and changes nothing else |
| SingleSelect.SingleSelectCombobox.SyncInput | src/components/SingleSelectComboBox/SingleSelectCombobox.jsx:27-31 | With a selection and the dropdown closed, the input shows the selection's text; otherwise the input is left alone |
| SingleSelect.SingleSelectCombobox.constructor | src/components/SingleSelectComboBox/SingleSelectCombobox.jsx:18-31 | Starts closed with every option shown, the input showing the selection or empty |
| SingleSelect.SingleSelectCombobox.SetOptions | src/components/SingleSelectComboBox/SingleSelectCombobox.jsx:22-24 | New options reset the filtered list to all of them |
| SingleSelect.SingleSelectCombobox.SetSelectedItem | src/components/SingleSelectComboBox/SingleSelectCombobox.jsx:27-31 | A new selection is shown in the input when the dropdown is closed |
| SingleSelect.SingleSelectCombobox.InputChange | src/components/SingleSelectComboBox/SingleSelectCombobox.jsx:48-62 | Stores the input, filters the options by it and opens the dropdown |
| SingleSelect.SingleSelectCombobox.SelectOption | src/components/SingleSelectComboBox/SingleSelectCombobox.jsx:88-94 | The option becomes the selection and its text the input. The dropdown closes and all options are shown |
| SingleSelect.SingleSelectCombobox.CreateNewOption | src/components/SingleSelectComboBox/SingleSelectCombobox.jsx:97-111 | Closes. A trimmed input with text becomes the selection and the input, and goes to `onCreateNew` when there is one |
| SingleSelect.SingleSelectCombobox.ClearSelection | src/components/SingleSelectComboBox/SingleSelectCombobox.jsx:114-117 | The selection becomes the empty string and the input is cleared |
| SingleSelect.SingleSelectCombobox.KeyDown | src/components/SingleSelectComboBox/SingleSelectCombobox.jsx:65-85 | Enter as in the multi-select: selecting resets the filtered options, creating leaves them. Escape closes and restores the selection's text. ArrowDown opens. Enter while closed, Escape and ArrowDown leave the filtered options as they were |
| SingleSelect.SingleSelectCombobox.Focus | src/components/SingleSelectComboBox/SingleSelectCombobox.jsx:141-145 | Focus opens the dropdown on an empty input |
| SingleSelect.SingleSelectCombobox.Blur | src/components/SingleSelectComboBox/SingleSelectCombobox.jsx:125-138 | The blur callback closes and shows the selection's text, or nothing without a selection |
| SingleSelect.SingleSelectCombobox.Toggle | src/components/SingleSelectComboBox/SingleSelectCombobox.jsx:301 | The arrow button flips the dropdown. Closing it lets the sync effect restore the selection's text |
| AuthForm.EmailShapeIff | src/components/Login/AuthForm.jsx:26 | The computed shape test accepts exactly the strings the e-mail regular expression matches |
| AuthForm.ValidateEmail | src/components/Login/AuthForm.jsx:25-37 | An empty e-mail gives the required message first. No error exactly when the regular expression matches; otherwise the format message |
| AuthForm.ValidatePassword | src/components/Login/AuthForm.jsx:39-50 | An empty password gives the required message. Under 6 characters gives the length message only on signup. No error otherwise |
| AuthForm.SignupPasswordLogsIn | src/components/Login/AuthForm.jsx:45 | A password accepted for signup is accepted for login |
| AuthForm.AuthFormState.ValidateField | src/components/Login/AuthForm.jsx:89-107 | Stores the field's error in its slot only, and reports whether there is none |
| AuthForm.AuthFormState.ValidateAllFields | src/components/Login/AuthForm.jsx:110-115 | Both slots are refreshed, and the result holds exactly when both are empty |
| AuthForm.AuthFormState.HandleInputChange | src/components/Login/AuthForm.jsx:118-131 | Stores the value and revalidates the field only if it was touched |
| AuthForm.AuthFormState.HandleInputBlur | src/components/Login/AuthForm.jsx:134-145 | Marks the field touched and validates it |
| AuthForm.AuthFormState.HandleSubmit | src/components/Login/AuthForm.jsx:147-168 | Touches and validates both fields. Sends exactly when both are valid, with the mode `login` or `signup` |
| Kanban.Moved | src/components/Kanban.jsx:21-30 | The move keeps the columns and their names, in order |
| Kanban.MovedEndsWithCard | src/components/Kanban.jsx:27 | The target column ends with the moved card |
| Kanban.MovedCardOnlyAtEnd | src/components/Kanban.jsx:24-27 | After the move, a card with the moved id appears only at the end of the target column |
| Kanban.MovedKeepsOthers | src/components/Kanban.jsx:25 | Every other card keeps its column and relative order |
| Kanban.WithoutCardLength | src/components/Kanban.jsx:25 | The filter removes exactly the cards with that id and keeps the count of every other id |
| Kanban.MoveInCounts | src/components/Kanban.jsx:25-27 | One column after the move: its length and its count of every id |
| Kanban.TotalAfterMove | src/components/Kanban.jsx:21-29 | The card total changes by the copies removed and the one appended |
| Kanban.IdCountAfterMove | src/components/Kanban.jsx:21-29 | The moved id is counted once per target column, and every other id's count is unchanged |
| Kanban.MoveKeepsCardsAndUniqueIds | src/components/Kanban.jsx:21-29 | With unique ids and the card present, a move keeps the card total and keeps ids unique |
| Kanban.InitialColumnsWellFormed | src/components/Kanban.jsx:7-16 | The initial board has distinct column names, three cards and the unique ids 1, 2 and 3 |
| Kanban.KanbanBoard.constructor | src/components/Kanban.jsx:19 | The board starts as the initial columns |
| Kanban.KanbanBoard.MoveCard | src/components/Kanban.jsx:21-30 | The loop that filters each column, followed by the push, gives exactly the moved board |
| KanbanColumns.GenerateId | src/components/Kanban/Kanban.jsx:11-13 | A column id is a whole number from 0 to 100 |
| KanbanColumns.WithoutColumn | src/components/Kanban/Kanban.jsx:25-28 | Deleting an id keeps exactly the columns with another id; `WithoutColumnAppend` fixes their order |
| KanbanColumns.WithoutColumnAppend | src/components/Kanban/Kanban.jsx:25-28 | Deleting keeps the other columns in order: a further column survives, last, exactly when its id differs |
| KanbanColumns.DeleteRemovesSharedId | src/components/Kanban/Kanban.jsx:26 | Two columns that drew the same id are both deleted |
| KanbanColumns.TitleCanRepeat | src/components/Kanban/Kanban.jsx:18 | Titles follow the count, so after a deletion the next title repeats one on the board |
| KanbanColumns.ColumnBoard.constructor | src/components/Kanban/Kanban.jsx:8-9 | The board starts with no column |
| KanbanColumns.ColumnBoard.CreateNewColumn | src/components/Kanban/Kanban.jsx:15-23 | Appends exactly one column titled after the new count and clears the message |
| KanbanColumns.ColumnBoard.DeleteColumn | src/components/Kanban/Kanban.jsx:25-28 | Removes the columns with the id and keeps the cap |
| KanbanColumns.ColumnBoard.AddColumnClicked | src/components/Kanban/Kanban.jsx:33-38 | The add button acts only below five columns, so the board never holds more than five |
| Http.BuildEventsUrl | src/components/util/http.js:5-14 | The URL starts with the events endpoint and is exactly the endpoint when neither parameter is given. Otherwise it appends `?search=` and `&max=`, or either alone, verbatim |
| Http.EndpointPlain | src/components/util/http.js:6 | The endpoint has no query and no fragment of its own |
| Http.Encode | src/components/util/http.js:9-11 | An encoded term has no `&`, `#` or `+`. A term without reserved characters is unchanged |
| Http.DecodeEncode | src/components/util/http.js:9-11 | Decoding undoes encoding for every term |
| Http.EncodedEventsUrl | src/components/util/http.js:8-14 | The encoded builder gives the code's URL whenever the term holds no reserved character |
| Http.EncodedSearchRoundTrip | src/components/util/http.js:8-14 | With the encoded builder the server reads back exactly the term and the number given |
| Http.SearchTermAmbiguity | src/components/util/http.js:9 | As written, the term "bolo&max=1" gives the same URL as the term "bolo" with `max=1`, and the server reads `search=bolo`, `max=1` |

## Left out

- File reads and writes, `JSON.parse`/`JSON.stringify` of the store files, Express routing, body parsing, CORS, the 500 answers of failed reads, and the one-second reply delays. Each store is a sequence in memory.
- Concurrency. Two requests that read, change and write the same file can lose an update. The model runs one handler at a time.
- `Math.random`. The draw is a parameter of `EventStore.Create` and `ColumnBoard.CreateNewColumn`. No uniqueness of random ids is claimed; `CollidingIdShadowsCreated` and `DeleteRemovesSharedId` show what a collision does.
- Backend.ProductStore.Create: uses the corrected id (see Findings), not the code's `Math.max` expression. `NextProductIdFresh` and `FixedProductIdAgrees` relate the two.
- Backend.EventStore.List: a `max` that is not a whole number is modelled only as "not numeric" (a start of `NaN`, read by `slice` as 0). Fractional values are not modelled.
- Records are modelled only as string fields that may be missing. Non-string values in the JSON files are not modelled, and neither are the fields the core never reads.
- `toLowerCase` covers Basic Latin and Latin-1 only. The white space that `trim` and `\s` strip is the ECMAScript set. String lengths count characters, not UTF-16 code units.
- `parseInt` is modelled for decimal text only; hexadecimal prefixes and other radices are not.
- Strings.ParseIntRoundTrip: numbers are exact integers here, while JavaScript rounds integers beyond `Number.MAX_SAFE_INTEGER` (2^53 - 1) to doubles. The round trip is stated only for safe integers.
- Backend.NextProductIdFresh: stated only for ids below `Number.MAX_SAFE_INTEGER`. A stored id of 2^53 would get 2^53 + 1, which rounds back to 2^53 and repeats the stored id; the model's exact arithmetic does not show that.
- Backend.FixedProductIdFresh: stated only for numeric ids below `Number.MAX_SAFE_INTEGER`, for the same reason.
- ComboItems.DisplayText: objects must carry the fields that `displayKey` and `searchKey` name, because reading a missing one makes the widget throw. `String(item)` of an object is "[object Object]"; other kinds of values (numbers, `null`) are not modelled.
- Comboboxes: the parent is assumed to store every value it receives through `onChange`. The 150 ms blur delay and the `data-dropdown` check of the related target are out: the blur callback is one step.
- KanbanColumns.ColumnBoard: the `message` state starts as an empty array, which renders as nothing; it is modelled as the empty string.
- Date formatting (`toLocaleDateString`), React rendering, styles, hover handlers and the query cache are out.
- The status mapping of the order details page duplicates the one modelled here and is not part of this model. Neither is the code that writes `produto`, `peso` and `bolosDetalhados`; only the decoder is modelled.
- Http: the server's query parsing (`Decode`, `QueryPart`, `PieceKey`, `PieceValue`, `Lookup`, `ReadParam`) covers only what these URLs need. A later duplicate parameter is not read, and arrays, nested keys and parameter limits are out. The `fetch` call and its error handling are out.
- AuthForm: the request to the backend, the stored token and the navigation after login are out. A valid submission is returned instead.

Where the code departs from the application's documented behaviour, the model states what the code does:

- In the code, the first product of an empty catalog gets the id "-Infinity", not 1. `NextProductId` models that expression, and `EmptyCatalogId` and `EmptyCatalogIdsCollide` state it. `ProductStore.Create` uses the corrected id instead (see Findings).
- The duplicate-name check covers every stored product, inactive ones included.
- `PUT /events/:id` stores `{id, ...event}`, so an `id` in the body replaces the path id.

## Findings

| source | as written | input that shows it | evidently intended | confidence | as-written member | corrected member |
|---|---|---|---|---|---|---|
| backend/app.js:62 | The new product id is `Math.max(...products.map(p => parseInt(p.id))) + 1`, with no case for an empty catalog or a non-numeric id | An empty catalog: the first product gets "-Infinity". The second then gets "NaN", and so does every later product, so their ids collide | One more than the largest numeric id, and 1 for an empty catalog | high, not executed | Backend.EmptyCatalogIdsCollide | Backend.FixedProductIdFresh |
| src/components/util/http.js:9 | The search term is appended to the URL without percent-encoding | The term "bolo&max=1" with no `max` gives the same URL as the term "bolo" with `max=1`. The server then searches "bolo" and applies a limit nobody asked for | The term encoded with `encodeURIComponent`, so that the server reads back exactly the term typed | medium, not executed | Http.SearchTermAmbiguity | Http.EncodedSearchRoundTrip |
