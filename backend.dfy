/**
 * The route handlers of the Express backend over its two JSON files: the product
 * catalog (`GET/POST /products`) and the orders, called events
 * (`GET/POST /events`, `GET/PUT/DELETE /events/:id`). Each file is loaded, changed
 * in memory and written back; here the loaded array is the `seq` field of a store
 * object and the write-back is the assignment to that field.
 */
module Backend {
  import opened Values
  import opened Seqs
  import opened Strings

  /** What a handler answers: a success body or an HTTP error status with its message. */
  datatype Reply<T> = Success(value: T) | Error(status: nat, message: string)

  // ---------------------------------------------------------------- products

  /** A catalog entry as stored in the products file. */
  datatype Product = Product(id: string, name: string, category: string, active: bool)

  const ProductNameRequired := "Nome do produto é obrigatório"
  const ProductExists := "Produto já existe"
  const DefaultCategory := "personalizado"

  /** `GET /products`: the stored products whose `active` flag is set, in stored order. */
  function ActiveProducts(products: seq<Product>): (r: seq<Product>)
    ensures |r| <= |products|
    ensures forall i :: 0 <= i < |r| ==> r[i] in products && r[i].active
    ensures forall i :: 0 <= i < |products| && products[i].active ==> products[i] in r
  {
    Filter(products, (p: Product) => p.active)
  }

  /** A product appended to the catalog is listed last exactly when it is active. */
  lemma ActiveProductsAppend(products: seq<Product>, p: Product)
    ensures ActiveProducts(products + [p]) == ActiveProducts(products) + (if p.active then [p] else [])
  {
    FilterConcat(products, [p], (q: Product) => q.active);
  }

  /** The duplicate check of `POST /products`: some stored product, active or not, has the same
      lower-cased name as the trimmed, lower-cased candidate. */
  function NameTaken(products: seq<Product>, name: string): bool {
    LowerNameIn(products, Lower(Trim(name)))
  }

  /** Some stored product's lower-cased name is `key`. */
  function LowerNameIn(products: seq<Product>, key: string): (r: bool)
    ensures r <==> exists i :: 0 <= i < |products| && Lower(products[i].name) == key
  {
    if products == [] then false
    else if Lower(products[0].name) == key then true
    else
      var rest := LowerNameIn(products[1..], key);
      assert forall i :: 0 <= i < |products| - 1 ==> products[1..][i] == products[i + 1];
      rest
  }

  /** `Math.max` of two numbers: `NaN` wins, `-Infinity` loses. */
  function Max2(a: JsNumber, b: JsNumber): JsNumber {
    if a.NaN? || b.NaN? then NaN
    else if a.NegInfinity? then b
    else if b.NegInfinity? then a
    else if a.n >= b.n then a else b
  }

  /** `Math.max(...xs)`: `-Infinity` for no argument, `NaN` as soon as one argument is `NaN`. */
  function MaxOf(xs: seq<JsNumber>): (r: JsNumber)
    ensures xs == [] ==> r == NegInfinity
    ensures (exists i :: 0 <= i < |xs| && xs[i].NaN?) ==> r == NaN
    ensures xs != [] && (forall i :: 0 <= i < |xs| ==> xs[i].Finite?) ==>
              r.Finite? && r in xs && forall i :: 0 <= i < |xs| ==> xs[i].n <= r.n
  {
    if xs == [] then NegInfinity else Max2(xs[0], MaxOf(xs[1..]))
  }

  /** `x + 1` on such a number. */
  function Increment(x: JsNumber): JsNumber {
    if x.Finite? then Finite(x.n + 1) else x
  }

  /** `products.map(p => parseInt(p.id))`. */
  function ParsedIds(products: seq<Product>): seq<JsNumber> {
    seq(|products|, i requires 0 <= i < |products| => ParseInt(products[i].id))
  }

  /** The id `POST /products` gives a new product: one more than the largest parsed id, as text. */
  function NextProductId(products: seq<Product>): string {
    NumberToString(Increment(MaxOf(ParsedIds(products))))
  }

  /** With a non-empty catalog of numeric ids below `Number.MAX_SAFE_INTEGER`, the new id is the
      largest id plus one, so it differs from every stored id. */
  lemma NextProductIdFresh(products: seq<Product>)
    requires products != []
    requires forall i :: 0 <= i < |products| ==> ParsedIds(products)[i].Finite?
    requires forall i :: 0 <= i < |products| ==> -MaxSafeInteger <= ParsedIds(products)[i].n < MaxSafeInteger
    ensures var m := MaxOf(ParsedIds(products));
            && m.Finite? && m in ParsedIds(products)
            && ParseInt(NextProductId(products)) == Finite(m.n + 1)
    ensures forall i :: 0 <= i < |products| ==> NextProductId(products) != products[i].id
  {
    var ids := ParsedIds(products);
    var m := MaxOf(ids);
    var next := NextProductId(products);
    assert next == IntToString(m.n + 1);
    ParseIntRoundTrip(m.n + 1);
    forall i | 0 <= i < |products| ensures next != products[i].id {
      assert ids[i].n <= m.n;
      assert ids[i] == ParseInt(products[i].id);
    }
  }

  /** An empty catalog has no maximum: the new id is the text "-Infinity". */
  lemma EmptyCatalogId()
    ensures NextProductId([]) == "-Infinity"
  {
  }

  /** One stored id that `parseInt` cannot read makes every new id the text "NaN". */
  lemma NonNumericIdGivesNaN(products: seq<Product>, i: nat)
    requires i < |products| && ParseInt(products[i].id).NaN?
    ensures NextProductId(products) == "NaN"
  {
    assert ParsedIds(products)[i].NaN?;
  }

  /** A catalog started empty collides: its first product gets the id "-Infinity", which
      `parseInt` cannot read, so every later product gets the same id "NaN". */
  lemma EmptyCatalogIdsCollide(name: string, category: string)
    ensures var first := Product(NextProductId([]), name, category, true);
            var second := Product(NextProductId([first]), name, category, true);
            && first.id == "-Infinity"
            && second.id == "NaN"
            && NextProductId([first, second]) == second.id
  {
    var first := Product(NextProductId([]), name, category, true);
    assert first.id == "-Infinity";
    assert ParseInt(first.id).NaN? by {
      assert TrimStart(first.id) == first.id;
      assert DigitPrefix(first.id[1..]) == "";
    }
    NonNumericIdGivesNaN([first], 0);
    var second := Product(NextProductId([first]), name, category, true);
    NonNumericIdGivesNaN([first, second], 0);
  }

  /** The largest numeric id, or 0 when there is none: ids `parseInt` cannot read are skipped. */
  function LargestNumericId(ids: seq<JsNumber>): (m: int)
    ensures m >= 0
    ensures forall i :: 0 <= i < |ids| && ids[i].Finite? ==> ids[i].n <= m
    ensures m == 0 || Finite(m) in ids
  {
    if ids == [] then 0
    else
      var rest := LargestNumericId(ids[1..]);
      if ids[0].Finite? && ids[0].n > rest then ids[0].n else rest
  }

  /** The id as evidently intended: one more than the largest numeric id, 1 for an empty catalog. */
  function FixedProductId(products: seq<Product>): string {
    IntToString(LargestNumericId(ParsedIds(products)) + 1)
  }

  /** The intended id is a positive number that no stored id equals, whatever the catalog holds, as
      long as its numeric ids stay below `Number.MAX_SAFE_INTEGER`. */
  lemma FixedProductIdFresh(products: seq<Product>)
    requires forall i :: 0 <= i < |products| && ParsedIds(products)[i].Finite? ==> ParsedIds(products)[i].n < MaxSafeInteger
    ensures ParseInt(FixedProductId(products)) == Finite(LargestNumericId(ParsedIds(products)) + 1)
    ensures forall i :: 0 <= i < |products| ==> FixedProductId(products) != products[i].id
    ensures products == [] ==> FixedProductId(products) == "1"
  {
    FixedProductIdReadsBack(products);
    AboveEveryId(products, FixedProductId(products));
    if products == [] {
      assert LargestNumericId(ParsedIds(products)) == 0;
    }
  }

  /** `parseInt` reads the corrected id back as the corrected maximum plus one. */
  lemma FixedProductIdReadsBack(products: seq<Product>)
    requires forall i :: 0 <= i < |products| && ParsedIds(products)[i].Finite? ==> ParsedIds(products)[i].n < MaxSafeInteger
    ensures ParseInt(FixedProductId(products)) == Finite(LargestNumericId(ParsedIds(products)) + 1)
  {
    var ids := ParsedIds(products);
    LargestNumericIdSafe(ids);
    ParseIntRoundTrip(LargestNumericId(ids) + 1);
  }

  /** A text that parses above the corrected maximum is no stored id. */
  lemma AboveEveryId(products: seq<Product>, next: string)
    requires ParseInt(next) == Finite(LargestNumericId(ParsedIds(products)) + 1)
    ensures forall i :: 0 <= i < |products| ==> next != products[i].id
  {
    var ids := ParsedIds(products);
    forall i | 0 <= i < |products| ensures next != products[i].id {
      assert ids[i] == ParseInt(products[i].id);
    }
  }

  /** Numeric ids below `Number.MAX_SAFE_INTEGER` keep the corrected maximum below it. */
  lemma LargestNumericIdSafe(ids: seq<JsNumber>)
    requires forall i :: 0 <= i < |ids| && ids[i].Finite? ==> ids[i].n < MaxSafeInteger
    ensures LargestNumericId(ids) < MaxSafeInteger
  {
    var m := LargestNumericId(ids);
    if m != 0 {
      var j :| 0 <= j < |ids| && ids[j] == Finite(m);
    }
  }

  /** Over numbers only, with a maximum that is not negative, both maxima agree. */
  lemma LargestNumericIsMax(ids: seq<JsNumber>)
    requires ids != []
    requires forall i :: 0 <= i < |ids| ==> ids[i].Finite?
    requires MaxOf(ids).n >= 0
    ensures LargestNumericId(ids) == MaxOf(ids).n
  {
    var m := MaxOf(ids);
    var k :| 0 <= k < |ids| && ids[k] == m;
    var largest := LargestNumericId(ids);
    assert ids[k].n <= largest;
    if largest != 0 {
      var j :| 0 <= j < |ids| && ids[j] == Finite(largest);
      assert ids[j].n <= m.n;
    }
  }

  /** On a non-empty catalog of numeric ids, not all negative, the intended id is the one the code gives. */
  lemma FixedProductIdAgrees(products: seq<Product>)
    requires products != []
    requires forall i :: 0 <= i < |products| ==> ParsedIds(products)[i].Finite?
    requires MaxOf(ParsedIds(products)).n >= 0
    ensures FixedProductId(products) == NextProductId(products)
  {
    LargestNumericIsMax(ParsedIds(products));
  }

  /** The product `POST /products` appends: the intended next id, trimmed name, the category or its
      default, active. */
  function NewProduct(products: seq<Product>, name: string, category: Option<string>): Product {
    Product(FixedProductId(products), Trim(name), if category.Some? then category.value else DefaultCategory, true)
  }

  /** After a product is created, creating one whose trimmed name differs only in letter case conflicts. */
  lemma SecondCreateConflicts(products: seq<Product>, name: string, category: Option<string>, again: string)
    requires Lower(Trim(again)) == Lower(Trim(name))
    ensures NameTaken(products + [NewProduct(products, name, category)], again)
  {
    var after := products + [NewProduct(products, name, category)];
    TrimIdempotent(name);
    assert Lower(after[|products|].name) == Lower(Trim(again));
  }

  /** The products file. */
  class ProductStore {
    var products: seq<Product>

    constructor (initial: seq<Product>)
      ensures products == initial
    {
      products := initial;
    }

    /** `GET /products`. */
    method List() returns (listed: seq<Product>)
      ensures listed == ActiveProducts(products)
    {
      listed := Filter(products, (p: Product) => p.active);
    }

    /** `POST /products` with body `{name, category}`. */
    method Create(name: Option<string>, category: Option<string>) returns (reply: Reply<Product>)
      modifies this
      ensures name.None? || !HasText(name.value) ==>
                reply == Error(400, ProductNameRequired) && products == old(products)
      ensures name.Some? && HasText(name.value) && NameTaken(old(products), name.value) ==>
                reply == Error(409, ProductExists) && products == old(products)
      ensures name.Some? && HasText(name.value) && !NameTaken(old(products), name.value) ==>
                && reply == Success(NewProduct(old(products), name.value, category))
                && products == old(products) + [reply.value]
    {
      if name.None? || !HasText(name.value) {
        return Error(400, ProductNameRequired);
      }
      if NameTaken(products, name.value) {
        return Error(409, ProductExists);
      }
      var product := Product(FixedProductId(products), Trim(name.value),
                             if category.Some? then category.value else DefaultCategory, true);
      products := products + [product];
      reply := Success(product);
    }
  }

  // ---------------------------------------------------------------- events

  /** An order as stored in the events file: the fields the core reads, each possibly missing. */
  datatype EventRecord = EventRecord(
    id: Option<string>,
    title: Option<string>,
    description: Option<string>,
    date: Option<string>,
    time: Option<string>,
    address: Option<string>,
    status: Option<string>,
    products: Option<string>,
    produto: Option<string>,
    peso: Option<string>,
    descricao: Option<string>,
    bolosDetalhados: Option<string>)

  /** The `max` query parameter: absent or empty, a number, or text that is not a number. */
  datatype MaxParam = NoMax | MaxValue(n: int) | MaxNotNumeric

  const EventRequired := "Event is required"
  const InvalidEventData := "Invalid data provided."
  const EventNotFound := "Event not found"
  const EventDeleted := "Event deleted"

  /** A field as a template literal prints it: a missing one prints as "undefined". */
  function Interpolated(o: Option<string>): string {
    if o.Some? then o.value else "undefined"
  }

  /** `${title} ${description} ${address}`. */
  function SearchableText(e: EventRecord): string {
    Interpolated(e.title) + " " + Interpolated(e.description) + " " + Interpolated(e.address)
  }

  /** The case-insensitive substring test of the search filter. */
  predicate MatchesSearch(e: EventRecord, search: string) {
    Contains(Lower(SearchableText(e)), Lower(search))
  }

  /** The `search` step of `GET /events`; an empty or absent term filters nothing. */
  function SearchFilter(events: seq<EventRecord>, search: string): (r: seq<EventRecord>)
    ensures search == "" ==> r == events
    ensures search != "" ==> forall i :: 0 <= i < |r| ==> r[i] in events && MatchesSearch(r[i], search)
    ensures search != "" ==> forall i :: 0 <= i < |events| && MatchesSearch(events[i], search) ==> events[i] in r
  {
    if search == "" then events else Filter(events, (e: EventRecord) => MatchesSearch(e, search))
  }

  /** A further stored event is kept last exactly when it matches (or there is no term): the search
      keeps the stored order and repeats nothing. */
  lemma SearchFilterAppend(events: seq<EventRecord>, e: EventRecord, search: string)
    ensures SearchFilter(events + [e], search) ==
            SearchFilter(events, search) + (if search == "" || MatchesSearch(e, search) then [e] else [])
  {
    if search != "" {
      FilterConcat(events, [e], (x: EventRecord) => MatchesSearch(x, search));
    }
  }

  /** How `Array.prototype.slice` resolves a relative index against a length. */
  function SliceIndex(i: int, len: nat): nat {
    if i < 0 then (if len + i < 0 then 0 else len + i) else if i > len then len else i
  }

  /** `s.slice(start, end)`. */
  function JsSlice<T>(s: seq<T>, start: int, end: int): seq<T> {
    var from := SliceIndex(start, |s|);
    var to := SliceIndex(end, |s|);
    if from >= to then [] else s[from..to]
  }

  /** The `max` step of `GET /events`: `events.slice(events.length - max, events.length)`; a
      non-numeric `max` makes the start `NaN`, which `slice` reads as 0. */
  function ApplyMax(events: seq<EventRecord>, max: MaxParam): seq<EventRecord> {
    match max
    case NoMax => events
    case MaxValue(n) => JsSlice(events, |events| - n, |events|)
    case MaxNotNumeric => JsSlice(events, 0, |events|)
  }

  /** For `0 <= max <= length` the step keeps exactly the last `max` events in stored order. */
  lemma ApplyMaxKeepsLast(events: seq<EventRecord>, n: int)
    requires 0 <= n <= |events|
    ensures ApplyMax(events, MaxValue(n)) == events[|events| - n..]
    ensures |ApplyMax(events, MaxValue(n))| == n
  {
  }

  /** A `max` beyond the length does not always return everything: the negative start counts back
      from the end, so below twice the length the slice starts at `2 * length - max` and keeps only
      the last `max - length` events. */
  lemma ApplyMaxBeyondLength(events: seq<EventRecord>, n: int)
    requires |events| < n
    ensures ApplyMax(events, MaxValue(n)) == if 2 * |events| - n <= 0 then events else events[2 * |events| - n..]
  {
  }

  /** The projection `GET /events` answers with; `products` defaults to the empty string and the
      fields it does not copy are absent. */
  function Project(e: EventRecord): EventRecord {
    EventRecord(e.id, e.title, e.description, e.date, e.time, e.address, e.status,
                Some(OrElse(e.products, "")), None, None, None, None)
  }

  /** `GET /events?search=&max=`. */
  function ListEvents(events: seq<EventRecord>, search: string, max: MaxParam): seq<EventRecord> {
    var kept := ApplyMax(SearchFilter(events, search), max);
    seq(|kept|, i requires 0 <= i < |kept| => Project(kept[i]))
  }

  /** With a search term and `0 <= max <= matches`, the list is the projection of the last `max`
      matching events, in stored order, and every one of them matches the term. */
  lemma ListEventsSearchThenLast(events: seq<EventRecord>, search: string, n: int)
    requires search != ""
    requires 0 <= n <= |SearchFilter(events, search)|
    ensures var matches := SearchFilter(events, search);
            var r := ListEvents(events, search, MaxValue(n));
            && |r| == n
            && forall i :: 0 <= i < n ==>
                 r[i] == Project(matches[|matches| - n + i]) && MatchesSearch(matches[|matches| - n + i], search)
  {
    ApplyMaxKeepsLast(SearchFilter(events, search), n);
  }

  /** Five stored events listed with `max=2` and no search: the last two, projected. */
  lemma ListLastTwoOfFive(a: EventRecord, b: EventRecord, c: EventRecord, d: EventRecord, e: EventRecord)
    ensures ListEvents([a, b, c, d, e], "", MaxValue(2)) == [Project(d), Project(e)]
  {
    ApplyMaxKeepsLast([a, b, c, d, e], 2);
  }

  /** `events.findIndex(event => event.id === id)`, with `None` for -1. */
  function IndexOfId(events: seq<EventRecord>, id: string): (r: Option<nat>)
    ensures r.Some? ==> r.value < |events| && events[r.value].id == Some(id)
    ensures r.Some? ==> forall j :: 0 <= j < r.value ==> events[j].id != Some(id)
    ensures r.None? <==> forall j :: 0 <= j < |events| ==> events[j].id != Some(id)
  {
    if events == [] then None
    else if events[0].id == Some(id) then Some(0)
    else match IndexOfId(events[1..], id)
      case None => None
      case Some(k) => Some(k + 1)
  }

  /** `events.find(event => event.id === id)`: the first event with that id. */
  function FindEvent(events: seq<EventRecord>, id: string): Option<EventRecord> {
    match IndexOfId(events, id)
    case None => None
    case Some(i) => Some(events[i])
  }

  /** The validation of `POST` and `PUT`: a string field that is not blank after trimming. */
  predicate Required(o: Option<string>) {
    o.Some? && HasText(o.value)
  }

  predicate ValidDraft(e: EventRecord) {
    Required(e.title) && Required(e.date) && Required(e.time) && Required(e.address) && Required(e.status)
  }

  /** `{id, ...event}`: the given id, unless the body carries its own. */
  function WithId(e: EventRecord, id: string): (r: EventRecord)
    ensures r.id == (if e.id.Some? then e.id else Some(id))
    ensures r.(id := e.id) == e
  {
    e.(id := if e.id.Some? then e.id else Some(id))
  }

  /** `Math.round(Math.random() * 10000)` for a draw `roll` in [0, 1). */
  function RoundedRoll(roll: real): (k: int)
    requires 0.0 <= roll < 1.0
    ensures 0 <= k <= 10000
  {
    (roll * 10000.0 + 0.5).Floor
  }

  /** The id `POST /events` gives: the rounded draw as decimal text. */
  function RandomEventId(roll: real): string
    requires 0.0 <= roll < 1.0
  {
    NatToString(RoundedRoll(roll))
  }

  /** Appending an event with an id no stored event has makes it the one found by that id. */
  lemma CreatedEventIsFound(events: seq<EventRecord>, e: EventRecord, id: string)
    requires IndexOfId(events, id).None?
    requires e.id == Some(id)
    ensures FindEvent(events + [e], id) == Some(e)
  {
    var after := events + [e];
    assert forall j :: 0 <= j < |events| ==> after[j] == events[j];
    assert after[|events|].id == Some(id);
  }

  /** An earlier event with the same id shadows the appended one: random ids can collide. */
  lemma CollidingIdShadowsCreated(events: seq<EventRecord>, e: EventRecord, id: string)
    requires IndexOfId(events, id).Some?
    ensures FindEvent(events + [e], id) == FindEvent(events, id)
  {
    var i := IndexOfId(events, id).value;
    var after := events + [e];
    assert after[i] == events[i];
    assert forall j :: 0 <= j < i ==> after[j] == events[j];
  }

  /** A replaced slot keeps answering to the path id when the body has no id of its own. */
  lemma ReplacedEventIsFound(events: seq<EventRecord>, id: string, body: EventRecord)
    requires IndexOfId(events, id).Some?
    requires body.id.None?
    ensures var i := IndexOfId(events, id).value;
            FindEvent(events[i := WithId(body, id)], id) == Some(WithId(body, id))
  {
    var i := IndexOfId(events, id).value;
    var after := events[i := WithId(body, id)];
    assert forall j :: 0 <= j < i ==> after[j] == events[j];
  }

  /** When ids are unique, a deleted event can no longer be found. */
  lemma DeletedEventIsGone(events: seq<EventRecord>, id: string)
    requires forall j, k :: 0 <= j < k < |events| ==> events[j].id != events[k].id
    requires IndexOfId(events, id).Some?
    ensures var i := IndexOfId(events, id).value;
            FindEvent(events[..i] + events[i + 1..], id).None?
  {
    var i := IndexOfId(events, id).value;
    var after := events[..i] + events[i + 1..];
    forall j | 0 <= j < |after| ensures after[j].id != Some(id) {
      if j < i {
        assert after[j] == events[j];
      } else {
        assert after[j] == events[j + 1];
      }
    }
  }

  /** The events file. */
  class EventStore {
    var events: seq<EventRecord>

    constructor (initial: seq<EventRecord>)
      ensures events == initial
    {
      events := initial;
    }

    /** `GET /events?search=&max=`. */
    method List(search: string, max: MaxParam) returns (listed: seq<EventRecord>)
      ensures listed == ListEvents(events, search, max)
    {
      var found := events;
      if search != "" {
        found := Filter(found, (e: EventRecord) => MatchesSearch(e, search));
      }
      found := ApplyMax(found, max);
      listed := seq(|found|, i requires 0 <= i < |found| => Project(found[i]));
    }

    /** `GET /events/:id`. */
    method Get(id: string) returns (reply: Reply<EventRecord>)
      ensures FindEvent(events, id).Some? ==> reply == Success(FindEvent(events, id).value)
      ensures FindEvent(events, id).None? ==>
                reply == Error(404, "For the id " + id + ", no event could be found.")
    {
      var found := FindEvent(events, id);
      if found.None? {
        return Error(404, "For the id " + id + ", no event could be found.");
      }
      reply := Success(found.value);
    }

    /** `POST /events` with body `{event}`; `roll` is the `Math.random()` draw behind the new id. */
    method Create(body: Option<EventRecord>, roll: real) returns (reply: Reply<EventRecord>)
      requires 0.0 <= roll < 1.0
      modifies this
      ensures body.None? ==> reply == Error(400, EventRequired) && events == old(events)
      ensures body.Some? && !ValidDraft(body.value) ==>
                reply == Error(400, InvalidEventData) && events == old(events)
      ensures body.Some? && ValidDraft(body.value) ==>
                && reply == Success(WithId(body.value, RandomEventId(roll)))
                && events == old(events) + [reply.value]
    {
      if body.None? {
        return Error(400, EventRequired);
      }
      var event := body.value;
      if !ValidDraft(event) {
        return Error(400, InvalidEventData);
      }
      var created := WithId(event, RandomEventId(roll));
      events := events + [created];
      reply := Success(created);
    }

    /** `PUT /events/:id` with body `{event}`. */
    method Replace(id: string, body: Option<EventRecord>) returns (reply: Reply<EventRecord>)
      modifies this
      ensures body.None? ==> reply == Error(400, EventRequired) && events == old(events)
      ensures body.Some? && !ValidDraft(body.value) ==>
                reply == Error(400, InvalidEventData) && events == old(events)
      ensures body.Some? && ValidDraft(body.value) && IndexOfId(old(events), id).None? ==>
                reply == Error(404, EventNotFound) && events == old(events)
      ensures body.Some? && ValidDraft(body.value) && IndexOfId(old(events), id).Some? ==>
                && reply == Success(WithId(body.value, id))
                && events == old(events)[IndexOfId(old(events), id).value := reply.value]
    {
      if body.None? {
        return Error(400, EventRequired);
      }
      var event := body.value;
      if !ValidDraft(event) {
        return Error(400, InvalidEventData);
      }
      var index := IndexOfId(events, id);
      if index.None? {
        return Error(404, EventNotFound);
      }
      events := events[index.value := WithId(event, id)];
      reply := Success(events[index.value]);
    }

    /** `DELETE /events/:id`. */
    method Delete(id: string) returns (reply: Reply<string>)
      modifies this
      ensures IndexOfId(old(events), id).None? ==> reply == Error(404, EventNotFound) && events == old(events)
      ensures IndexOfId(old(events), id).Some? ==>
                var i := IndexOfId(old(events), id).value;
                reply == Success(EventDeleted) && events == old(events)[..i] + old(events)[i + 1..]
    {
      var index := IndexOfId(events, id);
      if index.None? {
        return Error(404, EventNotFound);
      }
      events := events[..index.value] + events[index.value + 1..];
      reply := Success(EventDeleted);
    }
  }
}
