/** The cards browser: the filter record and the query it becomes, the choice
    between the search endpoint and the filtered listing, the client-side
    set filter, and the page state its handlers update. */
module Cards {
  import opened Wrappers
  import opened Strings
  import opened Sequences
  import opened Catalogue

  /** The set codes offered by the set filter. */
  const SetOptions: seq<string> := ["BP01", "BP02", "BP03", "BP04", "BP05", "SD01", "SD02", "SD03", "EXD01", "PR"]

  /** The filter record the form edits: a string per filter name. */
  type Filters = map<string, string>

  /** A value of the record sent to the listing endpoint: a string copied
      from the form, `Number(text)` (left uninterpreted), or `undefined`. */
  datatype FilterValue = Text(s: string) | NumberOf(text: string) | Undefined

  /** `activeFilters`: the record without `set`, with `publication_year`
      turned into a number when it is a non-empty string and `undefined`
      otherwise, and every other filter copied unchanged. */
  function ActiveFilters(filters: Filters): (active: map<string, FilterValue>)
    ensures "set" !in active
    ensures "publication_year" in active
    ensures active["publication_year"] ==
      if "publication_year" in filters && filters["publication_year"] != ""
      then NumberOf(filters["publication_year"]) else Undefined
    ensures forall k :: k != "set" && k != "publication_year" ==>
      (k in active <==> k in filters) && (k in active ==> active[k] == Text(filters[k]))
  {
    var rest := map k | k in filters && k != "set" && k != "publication_year" :: Text(filters[k]);
    var year :=
      if "publication_year" in filters && filters["publication_year"] != ""
      then NumberOf(filters["publication_year"]) else Undefined;
    rest["publication_year" := year]
  }

  /** The set filter never reaches the server: changing it leaves the query
      record as it was. */
  lemma SetFilterIsClientSide(filters: Filters, code: string)
    ensures ActiveFilters(filters["set" := code]) == ActiveFilters(filters)
    ensures ActiveFilters(filters - {"set"}) == ActiveFilters(filters)
  {
    SameOutsideSet(filters["set" := code], filters);
    SameOutsideSet(filters - {"set"}, filters);
  }

  /** Two filter records that differ at most in `set` give the same query
      record. */
  lemma SameOutsideSet(f1: Filters, f2: Filters)
    requires forall k :: k != "set" ==> (k in f1 <==> k in f2) && (k in f1 ==> f1[k] == f2[k])
    ensures ActiveFilters(f1) == ActiveFilters(f2)
  {
    var a, b := ActiveFilters(f1), ActiveFilters(f2);
    assert forall k :: k in a <==> k in b;
  }

  /** Changing one ordinary filter changes that entry of the query record
      only. */
  lemma FilterChangeIsLocal(filters: Filters, key: string, value: string)
    requires key != "set" && key != "publication_year"
    ensures ActiveFilters(filters[key := value]) == ActiveFilters(filters)[key := Text(value)]
  {
    var a, b := ActiveFilters(filters[key := value]), ActiveFilters(filters)[key := Text(value)];
    assert forall k :: k in a <==> k in b;
  }

  /** `setFilter`: the value of `filters.set`, if any. */
  function SetFilter(filters: Filters): Option<string>
  {
    if "set" in filters then Some(filters["set"]) else None
  }

  /** Which endpoint the page calls. */
  datatype FetchRequest = SearchRequest(query: string) | ListRequest(filters: map<string, FilterValue>)

  /** A non-empty applied search goes to the search endpoint; otherwise the
      listing endpoint gets the active filters. */
  function RequestFor(appliedSearch: string, filters: Filters): (request: FetchRequest)
    ensures appliedSearch != "" ==> request == SearchRequest(appliedSearch)
    ensures appliedSearch == "" ==> request.ListRequest? && request.filters == ActiveFilters(filters)
  {
    if appliedSearch != "" then SearchRequest(appliedSearch) else ListRequest(ActiveFilters(filters))
  }

  /** With a search applied, the filters (set aside) do not affect the
      request. */
  lemma SearchLocksFilters(appliedSearch: string, f1: Filters, f2: Filters)
    requires appliedSearch != ""
    ensures RequestFor(appliedSearch, f1) == RequestFor(appliedSearch, f2)
  {
  }

  /** `card.number?.includes(setFilter)`. */
  function NumberIncludes(code: string): Card -> bool
  {
    (c: Card) => c.number.Some? && Includes(c.number.value, code)
  }

  /** The cards shown: with a non-empty set filter, only those whose number
      contains the code (a card without a number is dropped), in the order
      received; without one, everything received. */
  function DisplayedCards(data: seq<Card>, setFilter: Option<string>): (shown: seq<Card>)
    ensures setFilter.Some? && setFilter.value != "" ==>
      forall c :: c in shown <==> c in data && c.number.Some? && Includes(c.number.value, setFilter.value)
    ensures setFilter.Some? && setFilter.value != "" ==>
      shown == Filter(data, NumberIncludes(setFilter.value))
    ensures setFilter.None? || setFilter.value == "" ==> shown == data
  {
    if setFilter.Some? && setFilter.value != "" then Filter(data, NumberIncludes(setFilter.value)) else data
  }

  /** A card is shown under a set filter exactly when the code occurs at some
      position of its number. */
  lemma DisplayedByOccurrence(data: seq<Card>, code: string, c: Card)
    requires code != ""
    ensures c in DisplayedCards(data, Some(code)) <==>
      c in data && c.number.Some? && exists i :: OccursAt(c.number.value, code, i)
  {
    if c.number.Some? {
      IncludesAt(c.number.value, code);
    }
  }

  /** The set filter the page starts with: `{ set: p }` for a non-empty `set`
      query parameter `p`, otherwise nothing. */
  function InitialFilters(setParam: Option<string>): (filters: Filters)
    ensures setParam.Some? && setParam.value != "" ==> filters == map["set" := setParam.value]
    ensures setParam.None? || setParam.value == "" ==> filters == map[]
  {
    if setParam.Some? && setParam.value != "" then map["set" := setParam.value] else map[]
  }

  // ---------------------------------------------------------------------------
  // Reading a query parameter
  // ---------------------------------------------------------------------------

  predicate NotQuestionMark(c: char) { c != '?' }

  predicate NotEquals(c: char) { c != '=' }

  /** The text after the first '?' of a URL (empty when there is none). */
  function QueryOf(url: string): (query: string)
    ensures |query| <= |url|
    ensures '?' !in url ==> query == ""
    ensures '?' in url ==> exists i :: 0 <= i < |url| && url[i] == '?' && '?' !in url[..i] && query == url[i + 1..]
  {
    var path := LeadingRun(url, NotQuestionMark);
    assert forall j :: 0 <= j < |path| ==> url[..|path|][j] != '?';
    if |path| < |url| then url[|path| + 1..] else ""
  }

  /** One `name=value` pair, split at its first '='; a pair without '=' has
      the empty value. */
  function ParsePair(pair: string): (nameValue: (string, string))
    ensures '=' !in nameValue.0
    ensures '=' !in pair ==> nameValue == (pair, "")
    ensures '=' in pair ==> pair == nameValue.0 + "=" + nameValue.1
  {
    var name := LeadingRun(pair, NotEquals);
    assert forall i :: 0 <= i < |name| ==> name[i] != '=';
    if |name| < |pair| then
      assert pair == name + "=" + pair[|name| + 1..];
      (name, pair[|name| + 1..])
    else
      assert name == pair;
      (name, "")
  }

  /** Pair `i` is the first pair named `name`, and its value is `value`. */
  predicate FirstPairWith(pairs: seq<string>, name: string, value: string, i: int)
  {
    && 0 <= i < |pairs|
    && ParsePair(pairs[i]) == (name, value)
    && forall j :: 0 <= j < i ==> ParsePair(pairs[j]).0 != name
  }

  /** The value of the first pair with this name. */
  function FirstValue(pairs: seq<string>, name: string): (value: Option<string>)
    ensures value.Some? ==> exists i :: FirstPairWith(pairs, name, value.value, i)
    ensures value.None? ==> forall i :: 0 <= i < |pairs| ==> ParsePair(pairs[i]).0 != name
    decreases |pairs|
  {
    if |pairs| == 0 then None
    else if ParsePair(pairs[0]).0 == name then
      assert FirstPairWith(pairs, name, ParsePair(pairs[0]).1, 0);
      Some(ParsePair(pairs[0]).1)
    else
      var rest := FirstValue(pairs[1..], name);
      assert forall i :: 1 <= i < |pairs| ==> pairs[i] == pairs[1..][i - 1];
      if rest.Some? then
        FirstPairShift(pairs, name, rest.value);
        rest
      else
        rest
  }

  /** Behind a pair of another name, the first pair named `name` moves one
      place down. */
  lemma FirstPairShift(pairs: seq<string>, name: string, value: string)
    requires |pairs| > 0 && ParsePair(pairs[0]).0 != name
    requires exists i :: FirstPairWith(pairs[1..], name, value, i)
    ensures exists i :: FirstPairWith(pairs, name, value, i)
  {
    var i :| FirstPairWith(pairs[1..], name, value, i);
    assert FirstPairWith(pairs, name, value, i + 1);
  }

  /** `searchParams.get(name)` for the query of `url`, with the values taken
      as written (no percent-decoding). */
  function QueryParam(url: string, name: string): (value: Option<string>)
    ensures value.Some? ==> exists i :: FirstPairWith(Split(QueryOf(url), '&'), name, value.value, i)
    ensures value.None? ==> forall part :: part in Split(QueryOf(url), '&') ==> ParsePair(part).0 != name
  {
    FirstValue(Split(QueryOf(url), '&'), name)
  }

  /** A parameter written as the only one of a query reads back. */
  lemma QueryParamRoundTrip(path: string, name: string, value: string)
    requires '?' !in path && '=' !in name && '&' !in name && '&' !in value
    ensures QueryParam(path + "?" + name + "=" + value, name) == Some(value)
  {
    var pair := name + "=" + value;
    assert path + "?" + name + "=" + value == path + "?" + pair;
    QueryAfterPath(path, pair);
    assert '&' !in pair;
    SplitWithoutSeparator(pair, '&');
    ParsePairOf(name, value);
  }

  /** Behind a path without '?', the query is everything after the '?'. */
  lemma QueryAfterPath(path: string, query: string)
    requires '?' !in path
    ensures QueryOf(path + "?" + query) == query
  {
    var url := path + "?" + query;
    LeadingRunExact(url, path, NotQuestionMark);
    assert url[|path| + 1..] == query;
  }

  /** A name without '=' and its value read back from `name=value`. */
  lemma ParsePairOf(name: string, value: string)
    requires '=' !in name
    ensures ParsePair(name + "=" + value) == (name, value)
  {
    var pair := name + "=" + value;
    LeadingRunExact(pair, name, NotEquals);
    assert pair[|name| + 1..] == value;
  }

  // ---------------------------------------------------------------------------
  // The page state
  // ---------------------------------------------------------------------------

  /** The state of the cards page that its handlers change. */
  class CardsPage {
    var search: string
    var appliedSearch: string
    var filters: Filters
    var cards: seq<Card>

    /** The page as first rendered, given the `set` query parameter. */
    constructor(setParam: Option<string>)
      ensures search == "" && appliedSearch == "" && cards == []
      ensures filters == InitialFilters(setParam)
    {
      search := "";
      appliedSearch := "";
      filters := InitialFilters(setParam);
      cards := [];
    }

    /** Typing in the search box. */
    method SetSearch(value: string)
      modifies this
      ensures search == value
      ensures appliedSearch == old(appliedSearch) && filters == old(filters) && cards == old(cards)
    {
      search := value;
    }

    /** `handleFilterChange(key)`: one entry of the filter record replaced. */
    method HandleFilterChange(key: string, value: string)
      modifies this
      ensures filters == old(filters)[key := value]
      ensures forall k :: k != key ==>
        (k in filters <==> k in old(filters)) && (k in filters ==> filters[k] == old(filters)[k])
      ensures search == old(search) && appliedSearch == old(appliedSearch) && cards == old(cards)
    {
      filters := filters[key := value];
    }

    /** The Search button: the trimmed search text becomes the applied one. */
    method Submit()
      modifies this
      ensures appliedSearch == Trim(search)
      ensures search == old(search) && filters == old(filters) && cards == old(cards)
    {
      appliedSearch := Trim(search);
    }

    /** `handleReset`: search text, applied search and filters all cleared. */
    method HandleReset()
      modifies this
      ensures search == "" && appliedSearch == "" && filters == map[]
      ensures cards == old(cards)
    {
      search := "";
      appliedSearch := "";
      filters := map[];
    }

    /** The request the loading effect makes for the current state. */
    function Request(): (request: FetchRequest)
      reads this
      ensures appliedSearch != "" ==> request == SearchRequest(appliedSearch)
      ensures appliedSearch == "" ==> request == ListRequest(ActiveFilters(filters))
    {
      RequestFor(appliedSearch, filters)
    }

    /** What the loading effect captures when it runs: the request for the
        current state and the set filter of that moment. */
    function StartLoad(): (load: (FetchRequest, Option<string>))
      reads this
      ensures load.0 == RequestFor(appliedSearch, filters)
      ensures load.1.Some? <==> "set" in filters
      ensures load.1.Some? ==> load.1.value == filters["set"]
    {
      (Request(), SetFilter(filters))
    }

    /** One response of the loading effect: the received cards, narrowed by
        the set filter `setFilter` that the effect captured when it issued
        that request (not the filter of the moment the response arrives).
        Responses are delivered in the order they resolve, each overwriting
        the cards. */
    method ReceiveCards(data: seq<Card>, setFilter: Option<string>)
      modifies this
      ensures cards == DisplayedCards(data, setFilter)
      ensures search == old(search) && appliedSearch == old(appliedSearch) && filters == old(filters)
    {
      if setFilter.Some? && setFilter.value != "" {
        cards := Filter(data, NumberIncludes(setFilter.value));
      } else {
        cards := data;
      }
    }
  }
}
