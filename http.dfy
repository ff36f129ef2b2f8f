/**
 * The URL `fetchEvents` requests: the events endpoint with the optional `search` and
 * `max` query parameters appended by plain concatenation. Beside it, how the server's
 * query-string parser reads such a URL back, which is what the concatenation is for.
 */
module Http {
  import opened Values
  import opened Strings

  /** The events endpoint of the deployed backend, `https://organizationapp-backend.onrender.com/events`. */
  const EventsUrl := "https://" + "organizationapp-backend" + ".onrender.com" + "/events"

  /** JavaScript truthiness of the numeric `max` argument: present and not zero. */
  predicate MaxGiven(max: Option<int>) {
    max.Some? && max.value != 0
  }

  /** The URL the code builds. */
  function EventsUrlFor(searchTerm: Option<string>, max: Option<int>): string {
    if Truthy(searchTerm) && MaxGiven(max) then EventsUrl + "?search=" + searchTerm.value + "&max=" + IntToString(max.value)
    else if Truthy(searchTerm) then EventsUrl + "?search=" + searchTerm.value
    else if MaxGiven(max) then EventsUrl + "?max=" + IntToString(max.value)
    else EventsUrl
  }

  /** The `let url` / `url +=` chain of `fetchEvents`. */
  method BuildEventsUrl(searchTerm: Option<string>, max: Option<int>) returns (url: string)
    ensures url == EventsUrlFor(searchTerm, max)
    ensures |url| >= |EventsUrl| && url[..|EventsUrl|] == EventsUrl
    ensures url == EventsUrl <==> !Truthy(searchTerm) && !MaxGiven(max)
  {
    url := EventsUrl;
    if Truthy(searchTerm) && MaxGiven(max) {
      url := url + "?search=" + searchTerm.value + "&max=" + IntToString(max.value);
    } else if Truthy(searchTerm) {
      url := url + "?search=" + searchTerm.value;
    } else if MaxGiven(max) {
      url := url + "?max=" + IntToString(max.value);
    }
  }

  // ---------------------------------------------------------------- reading a query back

  predicate IsHex(c: char) {
    '0' <= c <= '9' || 'A' <= c <= 'F' || 'a' <= c <= 'f'
  }

  function HexValue(c: char): nat
    requires IsHex(c)
  {
    if '0' <= c <= '9' then c as int - '0' as int
    else if 'A' <= c <= 'F' then c as int - 'A' as int + 10
    else c as int - 'a' as int + 10
  }

  /** Percent-decoding of a query component: `+` is a space and `%XX` an ASCII character. */
  function Decode(s: string): string
    decreases |s|
  {
    if s == [] then []
    else if s[0] == '%' && |s| >= 3 && IsHex(s[1]) && IsHex(s[2]) && HexValue(s[1]) < 8 then
      [(HexValue(s[1]) * 16 + HexValue(s[2])) as char] + Decode(s[3..])
    else if s[0] == '+' then " " + Decode(s[1..])
    else [s[0]] + Decode(s[1..])
  }

  /** The part of a URL between the first `?` and the fragment. */
  function QueryPart(url: string): string {
    var q := IndexOf(url, '?');
    if q < 0 then ""
    else
      var rest := url[q + 1..];
      var h := IndexOf(rest, '#');
      if h < 0 then rest else rest[..h]
  }

  /** The decoded name of a `name=value` piece. */
  function PieceKey(piece: string): string {
    var e := IndexOf(piece, '=');
    if e < 0 then Decode(piece) else Decode(piece[..e])
  }

  /** The decoded value of a `name=value` piece; a piece without `=` has the empty value. */
  function PieceValue(piece: string): string {
    var e := IndexOf(piece, '=');
    if e < 0 then "" else Decode(piece[e + 1..])
  }

  /** The first piece with the given name. */
  function Lookup(pieces: seq<string>, key: string): Option<string> {
    if pieces == [] then None
    else if PieceKey(pieces[0]) == key then Some(PieceValue(pieces[0]))
    else Lookup(pieces[1..], key)
  }

  /** What the server finds for a query parameter of the URL. */
  function ReadParam(url: string, key: string): Option<string> {
    Lookup(Split(QueryPart(url), '&'), key)
  }

  // ---------------------------------------------------------------- the encoded builder

  /** Characters the query syntax gives a meaning to. */
  predicate Reserved(c: char) {
    c == '%' || c == '&' || c == '#' || c == '+'
  }

  /** Text with none of those characters. */
  predicate NoReserved(s: string) {
    '%' !in s && '&' !in s && '#' !in s && '+' !in s
  }

  function Escape(c: char): string
    requires Reserved(c)
  {
    if c == '%' then "%25" else if c == '&' then "%26" else if c == '#' then "%23" else "%2B"
  }

  /** Percent-encoding of the reserved characters, the part of `encodeURIComponent` that matters here. */
  function Encode(s: string): (r: string)
    ensures forall k :: 0 <= k < |r| ==> r[k] != '&' && r[k] != '#' && r[k] != '+'
    ensures NoReserved(s) ==> r == s
  {
    if s == [] then []
    else (if Reserved(s[0]) then Escape(s[0]) else [s[0]]) + Encode(s[1..])
  }

  /** Decoding undoes encoding, for every string. */
  lemma {:induction false} DecodeEncode(s: string)
    ensures Decode(Encode(s)) == s
  {
    if s != [] {
      DecodeEncode(s[1..]);
      var rest := Encode(s[1..]);
      if Reserved(s[0]) {
        DecodeEscape(s[0], rest);
      } else {
        DecodeOther(s[0], rest);
      }
      assert [s[0]] + s[1..] == s;
    }
  }

  /** An escape decodes to the character it stands for. */
  lemma DecodeEscape(c: char, rest: string)
    requires Reserved(c)
    ensures Decode(Escape(c) + rest) == [c] + Decode(rest)
  {
    var e := Escape(c) + rest;
    assert e[3..] == rest;
    assert e[0] == '%' && IsHex(e[1]) && IsHex(e[2]) && HexValue(e[1]) < 8;
    assert (HexValue(e[1]) * 16 + HexValue(e[2])) as char == c;
  }

  /** Any other character decodes to itself. */
  lemma DecodeOther(c: char, rest: string)
    requires !Reserved(c)
    ensures Decode([c] + rest) == [c] + Decode(rest)
  {
    assert ([c] + rest)[1..] == rest;
  }

  /** The URL as evidently intended: the search term encoded before it is appended. */
  function EncodedEventsUrl(searchTerm: Option<string>, max: Option<int>): (url: string)
    ensures searchTerm.None? || NoReserved(searchTerm.value) ==>
              url == EventsUrlFor(searchTerm, max)
  {
    if Truthy(searchTerm) && MaxGiven(max) then EventsUrl + "?search=" + Encode(searchTerm.value) + "&max=" + IntToString(max.value)
    else if Truthy(searchTerm) then EventsUrl + "?search=" + Encode(searchTerm.value)
    else if MaxGiven(max) then EventsUrl + "?max=" + IntToString(max.value)
    else EventsUrl
  }

  /** Text with no reserved character and no `%` decodes to itself. */
  lemma {:induction false} DecodePlain(s: string)
    requires NoReserved(s)
    ensures Decode(s) == s
  {
    if s != [] {
      DecodePlain(s[1..]);
      assert [s[0]] + s[1..] == s;
    }
  }

  /** The endpoint has no query and no fragment of its own. */
  lemma EndpointPlain()
    ensures '?' !in EventsUrl && '#' !in EventsUrl
  {
    assert '?' !in "organizationapp-backend" && '#' !in "organizationapp-backend";
  }

  /** The query of a URL built on the events endpoint is what follows the `?`. */
  lemma QueryAfterBase(q: string)
    requires '#' !in q
    ensures QueryPart(EventsUrl + "?" + q) == q
  {
    var url := EventsUrl + "?" + q;
    EndpointPlain();
    assert url[|EventsUrl|] == '?';
    assert url[..|EventsUrl|] == EventsUrl;
    assert IndexOf(url, '?') == |EventsUrl|;
    assert url[|EventsUrl| + 1..] == q;
  }

  /** A `name=value` piece whose name has no `=` or reserved character reads back as that pair. */
  lemma PieceParts(name: string, value: string)
    requires '=' !in name
    requires NoReserved(name)
    ensures PieceKey(name + "=" + value) == name
    ensures PieceValue(name + "=" + value) == Decode(value)
  {
    var piece := name + "=" + value;
    assert piece[..|name|] == name;
    assert piece[|name|] == '=';
    assert IndexOf(piece, '=') == |name|;
    assert piece[|name| + 1..] == value;
    DecodePlain(name);
  }

  /** The decimal text of an integer holds no reserved character, `=` or `&`. */
  lemma IntTextPlain(n: int)
    ensures NoReserved(IntToString(n)) && '=' !in IntToString(n)
  {
    var m: nat := if n < 0 then -n else n;
    assert forall k :: 0 <= k < |NatToString(m)| ==> IsDigit(NatToString(m)[k]);
  }

  /** With the encoded builder the server reads back exactly the search term and the number given,
      whatever characters the search term holds. */
  lemma EncodedSearchRoundTrip(searchTerm: Option<string>, max: Option<int>)
    ensures ReadParam(EncodedEventsUrl(searchTerm, max), "search") == if Truthy(searchTerm) then Some(searchTerm.value) else None
    ensures ReadParam(EncodedEventsUrl(searchTerm, max), "max") == if MaxGiven(max) then Some(IntToString(max.value)) else None
  {
    if Truthy(searchTerm) && MaxGiven(max) {
      ReadBoth(searchTerm.value, max.value);
    } else if Truthy(searchTerm) {
      ReadSearchOnly(searchTerm.value);
    } else if MaxGiven(max) {
      ReadMaxOnly(max.value);
    } else {
      assert EncodedEventsUrl(searchTerm, max) == EventsUrl;
      NoQuery("search");
      NoQuery("max");
    }
  }

  /** The bare endpoint carries no parameter. */
  lemma NoQuery(key: string)
    requires key != ""
    ensures ReadParam(EventsUrl, key) == None
  {
    EndpointPlain();
    assert QueryPart(EventsUrl) == "";
    assert Split("", '&') == [""];
    assert PieceKey("") == "";
    assert [""][1..] == [];
    assert Lookup([""], key) == Lookup([], key);
  }

  /** The server reads the parameters of a URL on the endpoint from the `&`-separated pieces of its query. */
  lemma ReadQuery(q: string, key: string)
    requires '#' !in q
    ensures ReadParam(EventsUrl + "?" + q, key) == Lookup(Split(q, '&'), key)
  {
    QueryAfterBase(q);
  }

  /** The encoded search piece: no `&` or `#`, and it reads back as the term under `search`. */
  lemma SearchPiece(term: string)
    ensures var piece := "search=" + Encode(term);
            '&' !in piece && '#' !in piece &&
            PieceKey(piece) == "search" && PieceValue(piece) == term
  {
    var e := Encode(term);
    assert NoReserved("search") && '=' !in "search";
    assert "search=" + e == "search" + "=" + e;
    PieceParts("search", e);
    DecodeEncode(term);
  }

  /** The max piece: no `&` or `#`, and it reads back as the number's text under `max`. */
  lemma MaxPiece(n: int)
    ensures var piece := "max=" + IntToString(n);
            '&' !in piece && '#' !in piece &&
            PieceKey(piece) == "max" && PieceValue(piece) == IntToString(n)
  {
    var m := IntToString(n);
    IntTextPlain(n);
    DecodePlain(m);
    assert NoReserved("max") && '=' !in "max";
    assert "max=" + m == "max" + "=" + m;
    PieceParts("max", m);
  }

  /** A query of one piece. */
  lemma ReadSinglePiece(piece: string, key: string)
    requires '&' !in piece && '#' !in piece
    ensures ReadParam(EventsUrl + "?" + piece, key) == if PieceKey(piece) == key then Some(PieceValue(piece)) else None
  {
    SplitNoSep(piece, '&');
    ReadQuery(piece, key);
    assert [piece][1..] == [];
  }

  /** The appended text regrouped as `?` followed by the query. */
  lemma RegroupSearch(base: string, e: string)
    ensures base + "?search=" + e == base + "?" + ("search=" + e)
  {
    assert "?search=" == "?" + "search=";
  }

  lemma RegroupMax(base: string, m: string)
    ensures base + "?max=" + m == base + "?" + ("max=" + m)
  {
    assert "?max=" == "?" + "max=";
  }

  lemma RegroupBoth(base: string, e: string, m: string)
    ensures base + "?search=" + e + "&max=" + m == base + "?" + ("search=" + e + "&" + ("max=" + m))
  {
    assert "?search=" == "?" + "search=";
    assert "&max=" == "&" + "max=";
  }

  /** Reading `?search=<encoded>&max=<n>`. */
  lemma ReadBoth(term: string, n: int)
    ensures var url := EventsUrl + "?search=" + Encode(term) + "&max=" + IntToString(n);
            ReadParam(url, "search") == Some(term) && ReadParam(url, "max") == Some(IntToString(n))
  {
    var e := Encode(term);
    var m := IntToString(n);
    var sp := "search=" + e;
    var mp := "max=" + m;
    var q := sp + "&" + mp;
    SearchPiece(term);
    MaxPiece(n);
    RegroupBoth(EventsUrl, e, m);
    SplitAfterPiece(sp, mp, '&');
    SplitNoSep(mp, '&');
    assert Split(q, '&') == [sp, mp];
    ReadQuery(q, "search");
    ReadQuery(q, "max");
    assert [sp, mp][1..] == [mp];
    assert [mp][1..] == [];
  }

  /** Reading `?search=<encoded>`. */
  lemma ReadSearchOnly(term: string)
    ensures var url := EventsUrl + "?search=" + Encode(term);
            ReadParam(url, "search") == Some(term) && ReadParam(url, "max") == None
  {
    var e := Encode(term);
    SearchPiece(term);
    RegroupSearch(EventsUrl, e);
    ReadSinglePiece("search=" + e, "search");
    ReadSinglePiece("search=" + e, "max");
  }

  /** Reading `?max=<n>`. */
  lemma ReadMaxOnly(n: int)
    ensures var url := EventsUrl + "?max=" + IntToString(n);
            ReadParam(url, "search") == None && ReadParam(url, "max") == Some(IntToString(n))
  {
    var m := IntToString(n);
    MaxPiece(n);
    RegroupMax(EventsUrl, m);
    ReadSinglePiece("max=" + m, "search");
    ReadSinglePiece("max=" + m, "max");
  }

  /** As written, a search term holding `&max=` cannot be told from a real `max`: the two requests
      are the same URL, and the server reads the shortened term and a limit nobody asked for. */
  lemma SearchTermAmbiguity()
    ensures EventsUrlFor(Some("bolo&max=1"), None) == EventsUrlFor(Some("bolo"), Some(1))
    ensures ReadParam(EventsUrlFor(Some("bolo&max=1"), None), "search") == Some("bolo")
    ensures ReadParam(EventsUrlFor(Some("bolo&max=1"), None), "max") == Some("1")
  {
    var base := EventsUrl + "?search=";
    assert IntToString(1) == "1";
    AmbiguousTerm();
    assert EventsUrlFor(Some("bolo&max=1"), None) == base + "bolo&max=1";
    assert EventsUrlFor(Some("bolo"), Some(1)) == base + "bolo" + "&max=" + "1";
    assert base + ("bolo" + "&max=" + "1") == base + "bolo" + "&max=" + "1";
    assert NoReserved("bolo");
    EncodedSearchRoundTrip(Some("bolo"), Some(1));
  }

  /** The term splits into a search term and a `max` piece. */
  lemma AmbiguousTerm()
    ensures "bolo&max=1" == "bolo" + "&max=" + "1"
  {
  }
}
