/**
 * The order card of the events list: which CSS class a status gets, how the cakes
 * (bolos) of an order are decoded from whichever of three fields holds them, and how
 * long texts are shortened. `JSON.parse` of the detailed field is an input here.
 */
module EventItem {
  import opened Values
  import opened Seqs
  import opened Strings
  import opened ProductUtils
  import opened Backend

  /** One element of the parsed `bolosDetalhados` array: a falsy value, or anything else with the
      fields it may carry (a truthy value that is not an object carries none). */
  datatype RawItem = Falsy | Entry(nome: Option<string>, produto: Option<string>, peso: Option<string>, descricao: Option<string>)

  /** What `JSON.parse(event.bolosDetalhados)` gives: an exception, a value that is not an array, or an array. */
  datatype ParseOutcome = ParseFailure | NotAnArray | ParsedArray(items: seq<RawItem>)

  /** A decoded cake: name, weight and description. */
  datatype Bolo = Bolo(nome: string, peso: string, descricao: string)

  const NamelessProduct := "Produto sem nome"

  // ---------------------------------------------------------------- status

  /** The class suffix of a status; any other status, or none, gives the empty suffix. */
  function StatusSuffix(status: Option<string>): (r: string)
    ensures r != "" <==> status in {Some("A fazer"), Some("Pendente"), Some("Pronto"), Some("Entregue"), Some("Cancelado")}
  {
    if status == Some("A fazer") then "todo"
    else if status == Some("Pendente") then "pending"
    else if status == Some("Pronto") then "ready"
    else if status == Some("Entregue") then "delivered"
    else if status == Some("Cancelado") then "cancelled"
    else ""
  }

  /** The `className` of the status line. */
  function StatusClass(status: Option<string>): string {
    "event-item-status " + StatusSuffix(status)
  }

  /** Distinct known statuses get distinct classes, so the class tells the status back. */
  lemma StatusSuffixInjective(a: Option<string>, b: Option<string>)
    requires StatusSuffix(a) != ""
    requires StatusSuffix(a) == StatusSuffix(b)
    ensures a == b
  {
  }

  // ---------------------------------------------------------------- bolos

  /** `bolo && (bolo.nome || bolo.produto)`. */
  predicate Usable(item: RawItem) {
    item.Entry? && (Truthy(item.nome) || Truthy(item.produto))
  }

  /** `{nome: nome || produto || 'Produto sem nome', peso: peso || '', descricao: descricao || ''}`. */
  function Decode(item: RawItem): Bolo
    requires item.Entry?
  {
    Bolo(OrElse(item.nome, OrElse(item.produto, NamelessProduct)), OrElse(item.peso, ""), OrElse(item.descricao, ""))
  }

  /** The detailed field is consulted only when it is present, not blank and not the text `[]`. */
  predicate DetailedPresent(e: EventRecord) {
    Truthy(e.bolosDetalhados) && HasText(e.bolosDetalhados.value) && e.bolosDetalhados.value != "[]"
  }

  /** The array step: keep the usable entries and decode each. Every cake comes from a usable entry
      and every usable entry gives a cake; `DecodeAllAppend` fixes their order. */
  function DecodeAll(items: seq<RawItem>): (r: seq<Bolo>)
    ensures |r| <= |items|
    ensures forall i :: 0 <= i < |r| ==> exists item :: item in items && Usable(item) && r[i] == Decode(item)
    ensures forall j :: 0 <= j < |items| && Usable(items[j]) ==> Decode(items[j]) in r
  {
    var usable := Filter(items, Usable);
    var r := seq(|usable|, i requires 0 <= i < |usable| => Decode(usable[i]));
    assert forall i :: 0 <= i < |r| ==> usable[i] in items && Usable(usable[i]) && r[i] == Decode(usable[i]);
    r
  }

  /** A further array entry adds its cake last exactly when it is usable: the cakes follow the
      array's order, one per usable entry. */
  lemma DecodeAllAppend(items: seq<RawItem>, item: RawItem)
    ensures DecodeAll(items + [item]) == DecodeAll(items) + (if Usable(item) then [Decode(item)] else [])
  {
    FilterConcat(items, [item], Usable);
    var before := DecodeAll(items);
    var after := DecodeAll(items + [item]);
    var usable := Filter(items, Usable);
    assert |before| == |usable|;
    assert forall i :: 0 <= i < |before| ==> after[i] == before[i];
  }

  /** Source 1: the usable entries of a non-empty parsed array, in order; nothing otherwise. */
  function DetailedSource(e: EventRecord, parsed: ParseOutcome): seq<Bolo> {
    if DetailedPresent(e) && parsed.ParsedArray? && |parsed.items| > 0 then DecodeAll(parsed.items) else []
  }

  /** Source 2: one cake from the single `produto`/`peso`/`descricao` fields when `produto` has text. */
  function SingleSource(e: EventRecord): seq<Bolo> {
    if Required(e.produto) then [Bolo(Trim(e.produto.value), OrElse(e.peso, ""), OrElse(e.descricao, ""))] else []
  }

  /** The trimmed, non-empty lines of the legacy `products` string, in order. */
  function LegacyLines(s: string): (r: seq<string>)
    ensures forall k :: 0 <= k < |r| ==> r[k] != ""
  {
    Filter(Map(Split(s, '\n'), Trim), (line: string) => |line| > 0)
  }

  /** A legacy string without a newline is one line, trimmed, when it has text and none otherwise. */
  lemma LegacyLinesLine(x: string)
    requires '\n' !in x
    ensures LegacyLines(x) == if |Trim(x)| > 0 then [Trim(x)] else []
  {
    SplitNoSep(x, '\n');
    assert Map([x], Trim) == [Trim(x)];
  }

  /** Any legacy string, read line by line: a further line adds its trimmed text last exactly when
      that is not empty; with `LegacyLinesLine` this fixes the result for every string. */
  lemma LegacyLinesAppend(s: string, x: string)
    requires '\n' !in x
    ensures LegacyLines(s + "\n" + x) == LegacyLines(s) + (if |Trim(x)| > 0 then [Trim(x)] else [])
  {
    var keep := (line: string) => |line| > 0;
    var lines := Split(s, '\n');
    JoinedLinesSplit(s, x);
    MapConcat(lines, [x], Trim);
    assert Map([x], Trim) == [Trim(x)];
    FilterConcat(Map(lines, Trim), [Trim(x)], keep);
  }

  function AsBolo(line: string): Bolo {
    Bolo(line, "", "")
  }

  /** Source 3: one cake per line of the legacy `products` string. */
  function LegacySource(e: EventRecord): seq<Bolo> {
    if e.products.Some? && HasText(e.products.value) then Map(LegacyLines(e.products.value), AsBolo) else []
  }

  /** The first source that yields something; later sources are not consulted. */
  function DecodedBolos(e: EventRecord, parsed: ParseOutcome): (r: seq<Bolo>)
    ensures DetailedSource(e, parsed) != [] ==> r == DetailedSource(e, parsed)
    ensures DetailedSource(e, parsed) == [] && SingleSource(e) != [] ==> r == SingleSource(e)
    ensures DetailedSource(e, parsed) == [] && SingleSource(e) == [] ==> r == LegacySource(e)
  {
    var detailed := DetailedSource(e, parsed);
    if detailed != [] then detailed
    else
      var single := SingleSource(e);
      if single != [] then single else LegacySource(e)
  }

  /** The three guarded blocks that fill `bolos` in turn. */
  method ExtractBolos(e: EventRecord, parsed: ParseOutcome) returns (bolos: seq<Bolo>)
    ensures bolos == DecodedBolos(e, parsed)
  {
    bolos := [];
    if Truthy(e.bolosDetalhados) && HasText(e.bolosDetalhados.value) && e.bolosDetalhados.value != "[]" {
      match parsed {
        case ParseFailure =>
        case NotAnArray =>
        case ParsedArray(items) =>
          if |items| > 0 {
            bolos := DecodeAll(items);
          }
      }
    }
    assert bolos == DetailedSource(e, parsed);
    if |bolos| == 0 && e.produto.Some? && HasText(e.produto.value) {
      bolos := [Bolo(Trim(e.produto.value), OrElse(e.peso, ""), OrElse(e.descricao, ""))];
    }
    assert bolos == if DetailedSource(e, parsed) != [] then DetailedSource(e, parsed) else SingleSource(e);
    if |bolos| == 0 && Truthy(e.products) && HasText(e.products.value) {
      var productList := LegacyLines(e.products.value);
      if |productList| > 0 {
        bolos := Map(productList, AsBolo);
      }
    }
  }

  /** The filter of `bolosValidos`: the cakes whose name has text. */
  function Named(bolos: seq<Bolo>): seq<Bolo> {
    Filter(bolos, (b: Bolo) => HasText(b.nome))
  }

  /** A further cake is shown last exactly when its name has text, so the shown cakes keep the
      decoded order. */
  lemma NamedAppend(bolos: seq<Bolo>, b: Bolo)
    ensures Named(bolos + [b]) == Named(bolos) + (if HasText(b.nome) then [b] else [])
  {
    FilterConcat(bolos, [b], (c: Bolo) => HasText(c.nome));
  }

  /** `bolosValidos`: the decoded cakes whose name has text. */
  function DisplayedBolos(e: EventRecord, parsed: ParseOutcome): (r: seq<Bolo>)
    ensures forall i :: 0 <= i < |r| ==> HasText(r[i].nome) && r[i] in DecodedBolos(e, parsed)
    ensures forall i :: 0 <= i < |DecodedBolos(e, parsed)| && HasText(DecodedBolos(e, parsed)[i].nome) ==>
              DecodedBolos(e, parsed)[i] in r
  {
    Named(DecodedBolos(e, parsed))
  }

  /** With no usable detailed entry, a non-blank `produto` is shown as one cake named by its trimmed text. */
  lemma SingleFieldShown(e: EventRecord, parsed: ParseOutcome)
    requires DetailedSource(e, parsed) == []
    requires Required(e.produto)
    ensures DisplayedBolos(e, parsed) == [Bolo(Trim(e.produto.value), OrElse(e.peso, ""), OrElse(e.descricao, ""))]
  {
    TrimIdempotent(e.produto.value);
  }

  /** The legacy field written by `productsToString` is read back as one cake per non-blank product,
      named by the trimmed product, in order. */
  lemma StoredProductsShown(e: EventRecord, parsed: ParseOutcome, ps: seq<string>)
    requires DetailedSource(e, parsed) == [] && !Required(e.produto)
    requires forall k :: 0 <= k < |ps| ==> '\n' !in ps[k]
    requires e.products == Some(ProductsToString(Some(ps)))
    ensures DisplayedBolos(e, parsed) == Map(Map(NonBlank(ps), Trim), AsBolo)
  {
    var expected := Map(Map(NonBlank(ps), Trim), AsBolo);
    if NonBlank(ps) == [] {
      assert e.products == Some("");
    } else {
      StoredLegacyLines(ps);
    }
    assert DecodedBolos(e, parsed) == expected;
    TrimmedNamesHaveText(NonBlank(ps));
    FilterAllPass(expected, (b: Bolo) => HasText(b.nome));
  }

  /** The stored string of a non-empty list has text, and its legacy lines are the trimmed entries. */
  lemma StoredLegacyLines(ps: seq<string>)
    requires forall k :: 0 <= k < |ps| ==> '\n' !in ps[k]
    requires NonBlank(ps) != []
    ensures HasText(ProductsToString(Some(ps)))
    ensures LegacyLines(ProductsToString(Some(ps))) == Map(NonBlank(ps), Trim)
  {
    var kept := NonBlank(ps);
    var stored := ProductsToString(Some(ps));
    var trimmed := Map(kept, Trim);
    ProductsToStringLines(ps);
    JoinKeepsFirst(kept, "\n");
    TrimKeepsText(kept[0], stored);
    forall k | 0 <= k < |trimmed| ensures |trimmed[k]| > 0 {
      assert HasText(kept[k]);
    }
    FilterAllPass(trimmed, (line: string) => |line| > 0);
  }

  /** Trimmed entries that had text still have text. */
  lemma TrimmedNamesHaveText(kept: seq<string>)
    requires forall k :: 0 <= k < |kept| ==> HasText(kept[k])
    ensures forall k :: 0 <= k < |kept| ==> HasText(Map(Map(kept, Trim), AsBolo)[k].nome)
  {
    var names := Map(kept, Trim);
    forall k | 0 <= k < |kept| ensures HasText(Map(names, AsBolo)[k].nome) {
      assert Map(names, AsBolo)[k].nome == names[k] == Trim(kept[k]);
      TrimIdempotent(kept[k]);
    }
  }

  /** A string that starts with a piece that has text has text itself. */
  lemma TrimKeepsText(piece: string, s: string)
    requires HasText(piece)
    requires |piece| <= |s| && s[..|piece|] == piece
    ensures HasText(s)
  {
    TrimEmptyIff(piece);
    TrimEmptyIff(s);
    var i :| 0 <= i < |piece| && !IsSpace(piece[i]);
    assert s[i] == piece[i];
  }

  /** The events list answers with projections, which carry neither `produto` nor `bolosDetalhados`:
      a card built from a listed event decodes its cakes from the legacy field alone. */
  lemma ListedEventsUseLegacyField(e: EventRecord, parsed: ParseOutcome)
    ensures DecodedBolos(Project(e), parsed) == LegacySource(Project(e))
  {
  }

  // ---------------------------------------------------------------- truncation

  /** `text.length > n ? text.substring(0, n) + '...' : text`. */
  function Truncate(text: string, n: nat): (r: string)
    ensures |text| <= n ==> r == text
    ensures |text| > n ==> |r| == n + 3 && r[..n] == text[..n] && r[n..] == "..."
  {
    if |text| > n then text[..n] + "..." else text
  }

  /** Shortening a shortened text changes nothing. */
  lemma TruncateIdempotent(text: string, n: nat)
    ensures Truncate(Truncate(text, n), n) == Truncate(text, n)
  {
  }

  /** The observations line: shown only for a truthy description, cut at 100 characters. */
  function DescriptionShown(e: EventRecord): (r: Option<string>)
    ensures r.Some? <==> Truthy(e.description)
    ensures r.Some? ==> r.value == Truncate(e.description.value, 100) && |r.value| <= 103
  {
    var description := OrElse(e.description, "");
    if description != "" then Some(Truncate(description, 100)) else None
  }

  /** The address line: shown only for a truthy address, cut at 50 characters. */
  function AddressShown(e: EventRecord): (r: Option<string>)
    ensures r.Some? <==> Truthy(e.address)
    ensures r.Some? ==> r.value == Truncate(e.address.value, 50) && |r.value| <= 53
  {
    if Truthy(e.address) then Some(Truncate(e.address.value, 50)) else None
  }
}
