/**
 * The product-list helpers of the order form: a list of product names is stored in
 * an order as one newline-separated string and shown as a bullet list or a short
 * comma-separated preview. `None` stands for an argument that is null, missing or
 * not of the expected type (not an array, not a string).
 */
module ProductUtils {
  import opened Values
  import opened Seqs
  import opened Strings

  /** The entries kept by `products.filter(p => p && p.trim())`. */
  function NonBlank(products: seq<string>): seq<string> {
    Filter(products, HasText)
  }

  /** `productsToString`: the non-blank entries joined by newlines. */
  function ProductsToString(products: Option<seq<string>>): string {
    match products
    case None => ""
    case Some(ps) => Join(NonBlank(ps), "\n")
  }

  /** `stringToProducts`: the non-blank lines of the stored string. */
  function StringToProducts(productString: Option<string>): (r: seq<string>)
    ensures forall k :: 0 <= k < |r| ==> HasText(r[k]) && '\n' !in r[k]
    ensures productString.None? || productString == Some("") ==> r == []
  {
    match productString
    case None => []
    case Some(s) => if s == "" then [] else NonBlank(Split(s, '\n'))
  }

  /** A string without a newline is one product when it has text and none otherwise. */
  lemma StringToProductsLine(x: string)
    requires '\n' !in x
    ensures StringToProducts(Some(x)) == if HasText(x) then [x] else []
  {
    if x != "" {
      SplitNoSep(x, '\n');
    }
  }

  /** Any stored string, read line by line: a further line adds itself, unchanged and last, exactly
      when it has text; together with `StringToProductsLine` this fixes the result for every string. */
  lemma StringToProductsAppend(s: string, x: string)
    requires '\n' !in x
    ensures StringToProducts(Some(s + "\n" + x)) == StringToProducts(Some(s)) + (if HasText(x) then [x] else [])
  {
    var lines := Split(s, '\n');
    var whole := s + "\n" + x;
    JoinedLinesSplit(s, x);
    ReadNonEmpty(whole);
    FilterConcat(lines, [x], HasText);
    if s == "" {
      EmptyHasNoProducts();
    } else {
      ReadNonEmpty(s);
    }
  }

  /** A non-empty stored string is read as the non-blank pieces of its split. */
  lemma ReadNonEmpty(t: string)
    requires t != ""
    ensures StringToProducts(Some(t)) == NonBlank(Split(t, '\n'))
  {
  }

  /** The split of `s + "\n" + x` is the split of `s` and then `x`. */
  lemma JoinedLinesSplit(s: string, x: string)
    requires '\n' !in x
    ensures s + "\n" + x != ""
    ensures Split(s + "\n" + x, '\n') == Split(s, '\n') + [x]
  {
    assert s + "\n" + x == s + ['\n'] + x;
    SplitAppendPiece(s, x, '\n');
  }

  /** The one line of the empty string is blank. */
  lemma EmptyHasNoProducts()
    ensures NonBlank(Split("", '\n')) == []
  {
    assert Split("", '\n') == [""];
    assert !HasText("");
  }

  /** `formatProductsForDisplay`: one bullet line per non-blank entry. */
  function FormatProductsForDisplay(products: Option<seq<string>>): string {
    match products
    case None => ""
    case Some(ps) => Join(Bullets(NonBlank(ps)), "\n")
  }

  function Bullets(ps: seq<string>): seq<string> {
    seq(|ps|, k requires 0 <= k < |ps| => "• " + ps[k])
  }

  /** `formatProductsPreview` with its `maxLength` argument (50 when the caller omits it). */
  function FormatProductsPreview(products: Option<seq<string>>, maxLength: int): string {
    match products
    case None => ""
    case Some(ps) =>
      var valid := NonBlank(ps);
      if |valid| == 0 then ""
      else
        var preview := Join(valid, ", ");
        if |preview| <= maxLength then preview
        else preview[..if maxLength - 3 < 0 then 0 else maxLength - 3] + "..."
  }

  const DefaultPreviewLength := 50

  /** The stored string holds each kept entry unchanged (not trimmed), in order, one per line. */
  lemma ProductsToStringLines(ps: seq<string>)
    requires forall k :: 0 <= k < |ps| ==> '\n' !in ps[k]
    requires NonBlank(ps) != []
    ensures Split(ProductsToString(Some(ps)), '\n') == NonBlank(ps)
  {
    KeptHaveNoNewline(ps);
    SplitJoin(NonBlank(ps), '\n');
  }

  /** Kept entries come from the input, so they inherit its lack of newlines. */
  lemma KeptHaveNoNewline(ps: seq<string>)
    requires forall k :: 0 <= k < |ps| ==> '\n' !in ps[k]
    ensures forall k :: 0 <= k < |NonBlank(ps)| ==> '\n' !in NonBlank(ps)[k]
  {
    var kept := NonBlank(ps);
    forall k | 0 <= k < |kept| ensures '\n' !in kept[k] {
      var j :| 0 <= j < |ps| && ps[j] == kept[k];
    }
  }

  /** Round trip: reading back a stored list gives the non-blank entries of the original, in order. */
  lemma RoundTrip(ps: seq<string>)
    requires forall k :: 0 <= k < |ps| ==> '\n' !in ps[k]
    ensures StringToProducts(Some(ProductsToString(Some(ps)))) == NonBlank(ps)
  {
    var kept := NonBlank(ps);
    if kept == [] {
    } else {
      var s := ProductsToString(Some(ps));
      KeptHaveNoNewline(ps);
      SplitJoin(kept, '\n');
      FilterIdempotent(ps, HasText);
      JoinKeepsFirst(kept, "\n");
      HasTextNotEmpty(kept[0]);
    }
  }

  /** Round trip the other way: a stored string with no blank line is rebuilt exactly. */
  lemma StoredStringRoundTrip(s: string)
    requires forall k :: 0 <= k < |Split(s, '\n')| ==> HasText(Split(s, '\n')[k])
    ensures ProductsToString(Some(StringToProducts(Some(s)))) == s
  {
    var lines := Split(s, '\n');
    if s == "" {
      assert false;
    } else {
      FilterAllPass(lines, HasText);
      FilterAllPass(NonBlank(lines), HasText);
      JoinSplit(s, '\n');
    }
  }

  /** The display text has one line per non-blank entry: the entry behind a bullet. */
  lemma DisplayLines(ps: seq<string>)
    requires forall k :: 0 <= k < |ps| ==> '\n' !in ps[k]
    requires NonBlank(ps) != []
    ensures var lines := Split(FormatProductsForDisplay(Some(ps)), '\n');
            |lines| == |NonBlank(ps)| &&
            forall k :: 0 <= k < |lines| ==> lines[k] == "• " + NonBlank(ps)[k]
  {
    var kept := NonBlank(ps);
    var bullets := Bullets(kept);
    KeptHaveNoNewline(ps);
    forall k | 0 <= k < |bullets| ensures '\n' !in bullets[k] {
      assert bullets[k] == "• " + kept[k];
    }
    SplitJoin(bullets, '\n');
  }

  /** The preview is empty exactly when there is no non-blank entry, whatever the limit. */
  lemma PreviewEmptyIff(ps: seq<string>, maxLength: int)
    ensures FormatProductsPreview(Some(ps), maxLength) == "" <==> NonBlank(ps) == []
  {
    var valid := NonBlank(ps);
    if valid != [] {
      FirstKeptHasText(ps);
      JoinNotEmpty(valid, ", ");
      PreviewNotEmpty(ps, maxLength);
    }
  }

  /** The first entry kept by the blank filter has text. */
  lemma FirstKeptHasText(ps: seq<string>)
    requires NonBlank(ps) != []
    ensures HasText(NonBlank(ps)[0])
  {
  }

  /** A non-empty join gives a non-empty preview. */
  lemma PreviewNotEmpty(ps: seq<string>, maxLength: int)
    requires NonBlank(ps) != [] && |Join(NonBlank(ps), ", ")| > 0
    ensures FormatProductsPreview(Some(ps), maxLength) != ""
  {
    var preview := Join(NonBlank(ps), ", ");
    if |preview| > maxLength {
      var cut := if maxLength - 3 < 0 then 0 else maxLength - 3;
      assert FormatProductsPreview(Some(ps), maxLength) == preview[..cut] + "...";
    }
  }

  /** Joining non-blank entries gives a non-empty string. */
  lemma JoinNotEmpty(xs: seq<string>, sep: string)
    requires xs != [] && HasText(xs[0])
    ensures |Join(xs, sep)| > 0
  {
    JoinKeepsFirst(xs, sep);
    HasTextNotEmpty(xs[0]);
  }

  /** A preview that fits is the comma-joined list itself; one that does not fit is cut so that,
      with the ellipsis, it is exactly `maxLength` characters long and starts with the list. */
  lemma PreviewLength(ps: seq<string>, maxLength: int)
    requires maxLength >= 3
    ensures var r := FormatProductsPreview(Some(ps), maxLength);
            var preview := Join(NonBlank(ps), ", ");
            && |r| <= maxLength
            && (NonBlank(ps) != [] && |preview| <= maxLength ==> r == preview)
            && (|preview| > maxLength ==>
                  |r| == maxLength && r[..maxLength - 3] == preview[..maxLength - 3] && r[maxLength - 3..] == "...")
  {
  }

  /** The first entry of a join is a prefix of it. */
  lemma JoinKeepsFirst(xs: seq<string>, sep: string)
    requires xs != []
    ensures |Join(xs, sep)| >= |xs[0]| && Join(xs, sep)[..|xs[0]|] == xs[0]
  {
    if |xs| > 1 {
      assert Join(xs, sep) == xs[0] + (sep + Join(xs[1..], sep));
    }
  }

  // ---------------------------------------------------------------- documented examples

  const Chocolate := "Bolo de Chocolate"
  const Cenoura := "Bolo de Cenoura"

  /** The documented example list, stored: the two names on two lines. */
  lemma ProductsToStringExample()
    ensures ProductsToString(Some([Chocolate, Cenoura])) == "Bolo de Chocolate\nBolo de Cenoura"
  {
    ExampleNamesHaveText();
    NonBlankPair(Chocolate, Cenoura);
    JoinPair(Chocolate, Cenoura, "\n");
    ExampleJoined();
  }

  /** The documented example string, read back: the two names, in order. */
  lemma StringToProductsExample()
    ensures StringToProducts(Some("Bolo de Chocolate\nBolo de Cenoura")) == [Chocolate, Cenoura]
  {
    ExampleNamesHaveText();
    StringToProductsLine(Chocolate);
    StringToProductsAppend(Chocolate, Cenoura);
    ExampleJoined();
  }

  /** Both example names have text and no newline. */
  lemma ExampleNamesHaveText()
    ensures HasText(Chocolate) && '\n' !in Chocolate
    ensures HasText(Cenoura) && '\n' !in Cenoura
  {
    ChocolateHasText();
    CenouraHasText();
  }

  lemma ChocolateHasText()
    ensures HasText(Chocolate) && '\n' !in Chocolate
  {
    assert Chocolate[0] == 'B';
    StartsWithText(Chocolate);
  }

  lemma CenouraHasText()
    ensures HasText(Cenoura) && '\n' !in Cenoura
  {
    assert Cenoura[0] == 'B';
    StartsWithText(Cenoura);
  }

  /** A string whose first character is not white space has text. */
  lemma StartsWithText(s: string)
    requires s != [] && !IsSpace(s[0])
    ensures HasText(s)
  {
    TrimEmptyIff(s);
  }

  lemma ExampleJoined()
    ensures Chocolate + "\n" + Cenoura == "Bolo de Chocolate\nBolo de Cenoura"
  {
  }

  /** Two entries joined are the first, the separator and the second. */
  lemma JoinPair(a: string, b: string, sep: string)
    ensures Join([a, b], sep) == a + sep + b
  {
    assert [a, b][1..] == [b];
  }

  /** Two entries with text are both kept. */
  lemma NonBlankPair(a: string, b: string)
    requires HasText(a) && HasText(b)
    ensures NonBlank([a, b]) == [a, b]
  {
    var s := [a, b];
    assert s[1..] == [b] && [b][1..] == [];
    assert Filter([b], HasText) == [b] + Filter([], HasText);
    assert Filter(s, HasText) == [a] + Filter([b], HasText);
  }
}
