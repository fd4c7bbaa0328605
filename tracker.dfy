/** The collection tracker: a ledger mapping a card key to a boolean "owned"
    flag, the edits a user makes to it (toggle one card, mark or clear a
    whole set, import a file, reset), the envelope it is saved and exported
    in, and the owned counts shown on the page. */
module Tracker {
  import opened Wrappers
  import opened Strings
  import opened Sequences
  import opened Json
  import opened Catalogue

  /** The ledger. `false` entries are kept as they are; an absent key and a
      `false` entry both read as "not owned". */
  type Owned = map<string, bool>

  /** The browser-storage key the ledger is saved under, and the name of the
      exported file. */
  const StorageKey: string := "nebula-collection-tracker"
  const ExportFileName: string := "nebula-collection.json"

  const InvalidTrackerFile: string := "Invalid tracker file"

  /** The warnings for unreadable saved progress and a failed save. */
  const CouldNotRead: string := "Could not read saved progress. You can re-import JSON to restore."
  const CouldNotSave: string := "Could not save progress to this browser."

  /** The version tag of the saved and exported envelope. */
  const EnvelopeVersion: real := 1.0

  // ---------------------------------------------------------------------------
  // Card key and set label
  // ---------------------------------------------------------------------------

  /** `String(card.id ?? card.number ?? "")`: the id when there is one, else
      the number exactly as written, else the empty string. */
  function CardKey(card: Card): (key: string)
    ensures card.id.Some? ==> key != "" && (IsDigit(key[0]) || key[0] == '-')
    ensures card.id.None? && card.number.Some? ==> key == card.number.value
    ensures card.id.None? && card.number.None? ==> key == ""
  {
    if card.id.Some? then IntToString(card.id.value)
    else if card.number.Some? then card.number.value
    else ""
  }

  /** Two cards with ids share a ledger entry exactly when their ids are
      equal, whatever their numbers; two cards without ids share one exactly
      when their numbers are equal, with no case folding. */
  lemma CardKeyIdentity(a: Card, b: Card)
    ensures a.id.Some? && b.id.Some? ==> (CardKey(a) == CardKey(b) <==> a.id == b.id)
    ensures a.id.None? && b.id.None? && a.number.Some? && b.number.Some? ==>
      (CardKey(a) == CardKey(b) <==> a.number == b.number)
  {
    if a.id.Some? && b.id.Some? {
      IntToStringInjective(a.id.value, b.id.value);
    }
  }

  /** The characters `[A-Za-z]+\d+` matches: letters up to index `i`, then
      digits to the end. */
  predicate LettersThenDigits(s: string, i: int)
  {
    && 0 < i < |s|
    && (forall j :: 0 <= j < i ==> IsAsciiLetter(s[j]))
    && (forall j :: i <= j < |s| ==> IsDigit(s[j]))
  }

  /** `number.match(/^[A-Za-z]+\d+/)?.[0]`: the greedy match at the start of
      the number, if there is one. */
  function NumberPrefix(number: string): (m: Option<string>)
    ensures m.Some? ==> StartsWith(number, m.value)
    ensures m.Some? ==> exists i :: LettersThenDigits(m.value, i)
    ensures m.Some? ==> forall j :: 0 <= j < |m.value| ==>
      IsAsciiLetter(m.value[j]) || IsDigit(m.value[j])
    ensures m.Some? ==> |m.value| == |number| || !IsDigit(number[|m.value|])
    ensures m.None? ==> forall i :: 0 < i < |number| && IsDigit(number[i]) ==>
      exists j :: 0 <= j < i && !IsAsciiLetter(number[j])
  {
    var letters := LeadingRun(number, IsAsciiLetter);
    var digits := LeadingRun(number[|letters|..], IsDigit);
    if |letters| > 0 && |digits| > 0 then
      var m := letters + digits;
      assert LettersThenDigits(m, |letters|);
      assert number[..|m|] == m;
      Some(m)
    else
      None
  }

  /** `display_card_bundle_names?.split(",")[0]?.trim()`. */
  function DisplayName(bundleNames: Option<string>): (name: Option<string>)
    ensures name.Some? <==> bundleNames.Some?
    ensures name.Some? ==> ',' !in name.value
    ensures name.Some? && name.value != "" ==>
      !IsJsWhitespace(name.value[0]) && !IsJsWhitespace(name.value[|name.value| - 1])
  {
    if bundleNames.Some? then Some(Trim(Split(bundleNames.value, ',')[0])) else None
  }

  /** `displayName && displayName !== "-"`. */
  predicate Usable(name: Option<string>)
  {
    name.Some? && name.value != "" && name.value != "-"
  }

  /** `number?.match(/^[A-Za-z]+\d+/)?.[0] || "Unsorted"`. */
  function NumberLabel(number: Option<string>): (title: string)
    ensures title != "" && title != "-"
    ensures ',' !in title
  {
    var numberPrefix := if number.Some? then NumberPrefix(number.value) else None;
    if numberPrefix.Some? && numberPrefix.value != "" then
      assert forall j :: 0 <= j < |numberPrefix.value| ==> numberPrefix.value[j] != ',';
      numberPrefix.value
    else
      "Unsorted"
  }

  /** `getSetLabel`: the first comma-separated bundle name, trimmed, if it is
      non-empty and not "-"; else the letters-then-digits prefix of the
      number; else "Unsorted". A label is never empty, never "-", and never
      holds a comma. */
  function SetLabel(card: Card): (title: string)
    ensures title != "" && title != "-"
    ensures ',' !in title
  {
    var displayName := DisplayName(card.bundleNames);
    if Usable(displayName) then
      assert forall c :: c in displayName.value ==> c in Split(card.bundleNames.value, ',')[0];
      displayName.value
    else
      NumberLabel(card.number)
  }

  /** The order of preference on the bundle list: with `first` the text
      before its first comma (the whole list when it has none), the label is
      `first` trimmed when that is non-empty and not "-", whatever follows the
      comma; otherwise it comes from the number. */
  lemma SetLabelFromBundle(card: Card, first: string, rest: string)
    requires card.bundleNames.Some? && FirstPart(card.bundleNames.value, first, rest)
    ensures SetLabel(card) ==
      if Trim(first) != "" && Trim(first) != "-" then Trim(first) else NumberLabel(card.number)
  {
    if card.bundleNames == Some(first) {
      SplitWithoutSeparator(first, ',');
    } else {
      SplitAtFirstSeparator(first, rest, ',');
    }
  }

  /** `first` is the text before the first comma of `names`, or all of it,
      and `rest` what follows that comma. */
  predicate FirstPart(names: string, first: string, rest: string)
  {
    ',' !in first && (names == first || names == first + "," + rest)
  }

  /** Every bundle list has such a first part. */
  lemma BundleListShape(names: string)
    ensures exists first, rest :: FirstPart(names, first, rest)
  {
    var first := LeadingRun(names, NotComma);
    assert forall j :: 0 <= j < |first| ==> first[j] != ',';
    if |first| == |names| {
      assert FirstPart(names, first, "");
    } else {
      var rest := names[|first| + 1..];
      assert names == first + "," + rest;
      assert FirstPart(names, first, rest);
    }
  }

  predicate NotComma(c: char) { c != ',' }

  /** Without bundle names, the label comes from the number. */
  lemma SetLabelWithoutBundle(card: Card)
    requires card.bundleNames.None?
    ensures SetLabel(card) == NumberLabel(card.number)
  {
  }

  /** Without a usable bundle name, a number made of letters, then digits, then
      something that is not a digit is labelled with its letters and digits. */
  lemma SetLabelFromNumber(card: Card, letters: string, digits: string, tail: string)
    requires !Usable(DisplayName(card.bundleNames))
    requires |letters| > 0 && forall j :: 0 <= j < |letters| ==> IsAsciiLetter(letters[j])
    requires |digits| > 0 && forall j :: 0 <= j < |digits| ==> IsDigit(digits[j])
    requires |tail| > 0 ==> !IsDigit(tail[0])
    requires card.number == Some(letters + digits + tail)
    ensures SetLabel(card) == letters + digits
  {
    NumberPrefixOf(letters, digits, tail);
  }

  lemma NumberPrefixOf(letters: string, digits: string, tail: string)
    requires |letters| > 0 && forall j :: 0 <= j < |letters| ==> IsAsciiLetter(letters[j])
    requires |digits| > 0 && forall j :: 0 <= j < |digits| ==> IsDigit(digits[j])
    requires |tail| > 0 ==> !IsDigit(tail[0])
    ensures NumberPrefix(letters + digits + tail) == Some(letters + digits)
  {
    var number := letters + digits + tail;
    assert number[..|letters|] == letters;
    assert |letters| < |number| && number[|letters|] == digits[0];
    LeadingRunExact(number, letters, IsAsciiLetter);
    assert number[|letters|..] == digits + tail;
    assert (digits + tail)[..|digits|] == digits;
    LeadingRunExact(digits + tail, digits, IsDigit);
  }

  /** The number fallback is "Unsorted" exactly when there is no number or
      the number does not start with letters then digits (as "PR-107"). */
  lemma NumberLabelUnsorted(number: Option<string>)
    ensures NumberLabel(number) == "Unsorted" <==> number.None? || NumberPrefix(number.value).None?
  {
    if number.Some? && NumberPrefix(number.value).Some? {
      var m := NumberPrefix(number.value).value;
      var i :| LettersThenDigits(m, i);
      assert IsDigit(m[|m| - 1]);
    }
  }

  // ---------------------------------------------------------------------------
  // Sanitising, the envelope, import
  // ---------------------------------------------------------------------------

  /** `sanitizeOwned`: nothing for a falsy or non-object value; otherwise the
      entries whose value is a boolean, `true` and `false` alike, under their
      own keys. */
  function Sanitize(value: Json): (owned: Owned)
    ensures !Truthy(value) || !IsObjectType(value) ==> owned == map[]
    ensures value.JObject? || value.JArray? ==> forall k ::
      (k in owned <==> k in Entries(value) && Entries(value)[k].JBool?) &&
      (k in owned ==> owned[k] == Entries(value)[k].b)
  {
    if !Truthy(value) || !IsObjectType(value) then map[]
    else
      var entries := Entries(value);
      map k | k in entries && entries[k].JBool? :: entries[k].b
  }

  /** A ledger as the JSON object `JSON.stringify` writes for it. */
  function OwnedToJson(owned: Owned): (json: Json)
    ensures json.JObject?
    ensures forall k :: (Property(json, k) == if k in owned then Some(JBool(owned[k])) else None)
  {
    JObject(map k | k in owned :: JBool(owned[k]))
  }

  /** The saved and exported payload `{ version: 1, owned }`. */
  function Envelope(owned: Owned): (payload: Json)
    ensures Property(payload, "version") == Some(JNumber(EnvelopeVersion))
    ensures Property(payload, "owned") == Some(OwnedToJson(owned))
  {
    JObject(map["version" := JNumber(EnvelopeVersion), "owned" := OwnedToJson(owned)])
  }

  /** Sanitising an encoded ledger gives the ledger back: every value of a
      ledger is a boolean, so nothing is dropped. */
  lemma SanitizeOwnedToJson(owned: Owned)
    ensures Sanitize(OwnedToJson(owned)) == owned
  {
    var r := Sanitize(OwnedToJson(owned));
    assert forall k :: k in r <==> k in owned;
  }

  /** `sanitizeOwned` is idempotent. */
  lemma SanitizeIdempotent(value: Json)
    ensures Sanitize(OwnedToJson(Sanitize(value))) == Sanitize(value)
  {
    SanitizeOwnedToJson(Sanitize(value));
  }

  /** A JSON array is an object to `typeof`, so its boolean elements are kept
      under the decimal strings of their indices. */
  lemma SanitizeArray(items: seq<Json>)
    ensures forall i :: 0 <= i < |items| ==>
      (IntToString(i) in Sanitize(JArray(items)) <==> items[i].JBool?)
    ensures forall i :: 0 <= i < |items| && items[i].JBool? ==>
      Sanitize(JArray(items))[IntToString(i)] == items[i].b
    ensures forall k :: k in Sanitize(JArray(items)) ==>
      exists i :: 0 <= i < |items| && k == IntToString(i) && items[i].JBool?
  {
    var v := JArray(items);
    var r := Sanitize(v);
    var e := Entries(v);
    IndexKeysDistinct(|items|);
    forall k | k in r
      ensures exists i :: 0 <= i < |items| && k == IntToString(i) && items[i].JBool?
    {
      var i :| 0 <= i < |items| && k == IntToString(i);
      assert e[k] == items[i];
    }
  }

  /** `handleImport` from the parsed value on: a falsy or non-object value, or
      one without a truthy `owned` field, is rejected with "Invalid tracker
      file"; otherwise the sanitised `owned` field becomes the ledger. */
  function ImportOwned(parsed: Json): (r: Result<Owned, string>)
    ensures r.Failure? <==>
      !Truthy(parsed) || !IsObjectType(parsed) || !TruthyOpt(Property(parsed, "owned"))
    ensures r.Failure? ==> r.error == InvalidTrackerFile
    ensures r.Success? ==> r.value == Sanitize(Property(parsed, "owned").value)
  {
    if !Truthy(parsed) || !IsObjectType(parsed) || !TruthyOpt(Property(parsed, "owned")) then
      Failure(InvalidTrackerFile)
    else
      Success(Sanitize(Property(parsed, "owned").value))
  }

  /** Importing a saved or exported envelope reproduces the ledger it holds. */
  lemma ImportEnvelopeRoundTrip(owned: Owned)
    ensures ImportOwned(Envelope(owned)) == Success(owned)
  {
    SanitizeOwnedToJson(owned);
  }

  /** Arrays, `null` and objects whose `owned` field is missing or falsy are
      rejected; an object with a truthy non-object `owned` is accepted and
      yields the empty ledger. */
  lemma ImportValidation(items: seq<Json>, fields: map<string, Json>)
    ensures ImportOwned(JArray(items)).Failure?
    ensures ImportOwned(JNull).Failure?
    ensures "owned" !in fields ==> ImportOwned(JObject(fields)).Failure?
    ensures ImportOwned(JObject(map["owned" := JBool(false)])).Failure?
    ensures ImportOwned(JObject(map["owned" := JNumber(5.0)])) == Success(map[])
  {
  }

  // ---------------------------------------------------------------------------
  // Edits as functions of the ledger
  // ---------------------------------------------------------------------------

  /** `!!owned[key]`. */
  predicate IsOwned(owned: Owned, key: string)
  {
    key in owned && owned[key]
  }

  /** `toggleCard` on the ledger: an owned entry is deleted, an absent or
      `false` entry becomes `true`; every other entry is left alone. */
  function Toggled(owned: Owned, key: string): (next: Owned)
    ensures IsOwned(next, key) == !IsOwned(owned, key)
    ensures key in next ==> next[key]
    ensures next - {key} == owned - {key}
  {
    if IsOwned(owned, key) then owned - {key} else owned[key := true]
  }

  /** Toggling twice restores a ledger in which the key was absent or owned. */
  lemma ToggleTwiceRestores(owned: Owned, key: string)
    requires key !in owned || owned[key]
    ensures Toggled(Toggled(owned, key), key) == owned
  {
    var once := Toggled(owned, key);
    var twice := Toggled(once, key);
    assert forall k :: k in twice <==> k in owned;
  }

  /** Toggling twice from a `false` entry deletes it instead. */
  lemma ToggleTwiceDropsFalse(owned: Owned, key: string)
    requires key in owned && !owned[key]
    ensures Toggled(Toggled(owned, key), key) == owned - {key}
  {
    var twice := Toggled(Toggled(owned, key), key);
    assert forall k :: k in twice <==> k in owned - {key};
  }

  /** The keys of a list of cards. */
  function Keys(cards: seq<Card>): set<string>
  {
    set c | c in cards :: CardKey(c)
  }

  /** `setEntireGroup` on the ledger: with `true` every key of the group is set
      to `true`, with `false` every key of the group is deleted; keys outside
      the group are unchanged. */
  function GroupSet(owned: Owned, group: seq<Card>, value: bool): (next: Owned)
    ensures forall k :: k in Keys(group) ==>
      if value then k in next && next[k] else k !in next
    ensures forall k :: k !in Keys(group) ==>
      (k in next <==> k in owned) && (k in next ==> next[k] == owned[k])
  {
    if value then owned + map k | k in Keys(group) :: true else owned - Keys(group)
  }

  /** One more card of the group: its key is set or deleted on top of what
      the earlier cards did. */
  lemma GroupSetStep(owned: Owned, group: seq<Card>, i: nat, value: bool, next: Owned)
    requires i < |group| && next == GroupSet(owned, group[..i], value)
    ensures GroupSet(owned, group[..i + 1], value) ==
      if value then next[CardKey(group[i]) := true] else next - {CardKey(group[i])}
  {
    var key := CardKey(group[i]);
    assert Keys(group[..i + 1]) == Keys(group[..i]) + {key} by {
      assert group[..i + 1] == group[..i] + [group[i]];
    }
    if value {
      MarkOneMore(owned, Keys(group[..i]), key);
    } else {
      assert owned - (Keys(group[..i]) + {key}) == (owned - Keys(group[..i])) - {key};
    }
  }

  /** An empty group changes nothing. */
  lemma GroupSetNone(owned: Owned, group: seq<Card>, value: bool)
    requires group == []
    ensures GroupSet(owned, group, value) == owned
  {
    assert Keys(group) == {};
    if value {
      assert owned + (map k | k in Keys(group) :: true) == owned;
    }
  }

  /** Setting the keys of `keys + {key}` is setting those of `keys`, then
      `key`. */
  lemma MarkOneMore(owned: Owned, keys: set<string>, key: string)
    ensures owned + (map k | k in keys + {key} :: true) == (owned + (map k | k in keys :: true))[key := true]
  {
    var a := owned + (map k | k in keys + {key} :: true);
    var b := (owned + (map k | k in keys :: true))[key := true];
    assert forall k :: k in a <==> k in b;
  }

  /** The updater `setEntireGroup` hands to `setOwned`: a copy of the ledger,
      then each card of the group in turn has its key set or deleted. */
  method SetGroupUpdater(prev: Owned, cardsInSet: seq<Card>, value: bool) returns (next: Owned)
    ensures next == GroupSet(prev, cardsInSet, value)
  {
    next := prev;
    var i := 0;
    while i < |cardsInSet|
      invariant 0 <= i <= |cardsInSet|
      invariant next == GroupSetFold(prev, cardsInSet[..i], value)
    {
      var key := CardKey(cardsInSet[i]);
      assert cardsInSet[..i + 1][..i] == cardsInSet[..i];
      if value {
        next := next[key := true];
      } else {
        next := next - {key};
      }
      i := i + 1;
    }
    assert cardsInSet[..i] == cardsInSet;
    GroupSetFoldIsGroupSet(prev, cardsInSet, value);
  }

  /** The updater's loop as a fold over the group, one card at a time. */
  function GroupSetFold(owned: Owned, group: seq<Card>, value: bool): Owned
    decreases |group|
  {
    if |group| == 0 then owned
    else
      var before := GroupSetFold(owned, group[..|group| - 1], value);
      var key := CardKey(group[|group| - 1]);
      if value then before[key := true] else before - {key}
  }

  lemma {:induction false} GroupSetFoldIsGroupSet(owned: Owned, group: seq<Card>, value: bool)
    ensures GroupSetFold(owned, group, value) == GroupSet(owned, group, value)
    decreases |group|
  {
    if |group| == 0 {
      GroupSetNone(owned, group, value);
    } else {
      var n := |group| - 1;
      GroupSetFoldIsGroupSet(owned, group[..n], value);
      GroupSetStep(owned, group, n, value, GroupSet(owned, group[..n], value));
      assert group[..n + 1] == group;
    }
  }

  // ---------------------------------------------------------------------------
  // Counts
  // ---------------------------------------------------------------------------

  /** `(card) => owned[cardKey(card)]`, read as a boolean. */
  function OwnedBy(owned: Owned): Card -> bool
  {
    (c: Card) => IsOwned(owned, CardKey(c))
  }

  /** The cards of a list that the ledger marks as owned, in order. */
  function OwnedCards(cards: seq<Card>, owned: Owned): seq<Card>
  {
    Filter(cards, OwnedBy(owned))
  }

  /** `ownedInSet`: `setCards.filter((card) => owned[cardKey(card)]).length`. */
  function OwnedInSet(setCards: seq<Card>, owned: Owned): (n: nat)
    ensures n <= |setCards|
  {
    |OwnedCards(setCards, owned)|
  }

  /** The fold behind `ownedCount`, with its accumulator. */
  function CountFrom(cards: seq<Card>, owned: Owned, acc: nat): (n: nat)
    ensures acc <= n <= acc + |cards|
    decreases |cards|
  {
    if |cards| == 0 then acc
    else CountFrom(cards[1..], owned, acc + (if IsOwned(owned, CardKey(cards[0])) then 1 else 0))
  }

  /** `ownedCount`: `cards.reduce((acc, card) => acc + (owned[cardKey(card)] ? 1 : 0), 0)`. */
  function OwnedCount(cards: seq<Card>, owned: Owned): (n: nat)
    ensures n <= |cards|
  {
    CountFrom(cards, owned, 0)
  }

  lemma {:induction false} CountFromIsFilterLength(cards: seq<Card>, owned: Owned, acc: nat)
    ensures CountFrom(cards, owned, acc) == acc + |OwnedCards(cards, owned)|
    decreases |cards|
  {
    if |cards| > 0 {
      CountFromIsFilterLength(cards[1..], owned, acc + (if IsOwned(owned, CardKey(cards[0])) then 1 else 0));
    }
  }

  /** The fold and the filter agree: `ownedCount` is the number of catalogue
      cards whose key maps to `true`. */
  lemma OwnedCountIsOwnedCards(cards: seq<Card>, owned: Owned)
    ensures OwnedCount(cards, owned) == |OwnedCards(cards, owned)| == OwnedInSet(cards, owned)
  {
    CountFromIsFilterLength(cards, owned, 0);
  }

  /** Only what the ledger says about the catalogue's own keys counts. */
  lemma {:induction false} CountDependsOnCatalogueKeys(cards: seq<Card>, o1: Owned, o2: Owned, acc: nat)
    requires forall c :: c in cards ==> IsOwned(o1, CardKey(c)) == IsOwned(o2, CardKey(c))
    ensures CountFrom(cards, o1, acc) == CountFrom(cards, o2, acc)
    decreases |cards|
  {
    if |cards| > 0 {
      assert cards[0] in cards;
      assert forall c :: c in cards[1..] ==> c in cards;
      CountDependsOnCatalogueKeys(cards[1..], o1, o2,
        acc + (if IsOwned(o1, CardKey(cards[0])) then 1 else 0));
    }
  }

  /** Orphan keys (no catalogue card has them) and `false` entries do not
      count. */
  lemma OrphansAndFalseDoNotCount(cards: seq<Card>, owned: Owned, orphan: string, b: bool, k: string)
    requires forall c :: c in cards ==> CardKey(c) != orphan
    ensures OwnedCount(cards, owned[orphan := b]) == OwnedCount(cards, owned)
    ensures OwnedCount(cards, owned[k := false]) == OwnedCount(cards, owned - {k})
  {
    CountDependsOnCatalogueKeys(cards, owned[orphan := b], owned, 0);
    CountDependsOnCatalogueKeys(cards, owned[k := false], owned - {k}, 0);
  }

  /** After "Mark all" every card of the group is owned; after "Clear" none is. */
  lemma GroupSetCounts(owned: Owned, group: seq<Card>)
    ensures OwnedInSet(group, GroupSet(owned, group, true)) == |group|
    ensures OwnedInSet(group, GroupSet(owned, group, false)) == 0
  {
    var marked := GroupSet(owned, group, true);
    var cleared := GroupSet(owned, group, false);
    assert forall c :: c in group ==> CardKey(c) in Keys(group);
    FilterAllOrNone(group, (c: Card) => IsOwned(marked, CardKey(c)));
    FilterAllOrNone(group, (c: Card) => IsOwned(cleared, CardKey(c)));
  }

  // ---------------------------------------------------------------------------
  // The page state
  // ---------------------------------------------------------------------------

  /** The card number a catalogue sort compares: `a.number || ""`. */
  function NumberText(card: Card): string
  {
    if card.number.Some? then card.number.value else ""
  }

  /** The comparator of the catalogue sort, given `le(a, b)` for
      `a.localeCompare(b) <= 0`. */
  function ByNumber(le: (string, string) -> bool): (Card, Card) -> bool
  {
    OrderBy(NumberText, le)
  }

  /** The state of the tracker page: the catalogue, the ledger and the warning
      shown for storage and import problems. */
  class TrackerPage {
    var cards: seq<Card>
    var owned: Owned
    var storageError: Option<string>

    constructor()
      ensures cards == [] && owned == map[] && storageError == None
    {
      cards := [];
      owned := map[];
      storageError := None;
    }

    /** The loaded catalogue, sorted by number (`le` is `localeCompare <= 0`). */
    method ReceiveCatalogue(data: seq<Card>, le: (string, string) -> bool)
      modifies this
      ensures cards == SortBy(data, ByNumber(le))
      ensures multiset(cards) == multiset(data)
      ensures Total(le) && Transitive(le) ==> SortedBy(cards, ByNumber(le))
      ensures owned == old(owned) && storageError == old(storageError)
    {
      cards := SortBy(data, ByNumber(le));
      if Total(le) && Transitive(le) {
        OrderByConsistent(NumberText, le);
        SortBySorted(data, ByNumber(le));
      }
    }

    /** `toggleCard`: flips the card's own entry and nothing else. */
    method ToggleCard(card: Card)
      modifies this
      ensures owned == Toggled(old(owned), CardKey(card))
      ensures cards == old(cards) && storageError == old(storageError)
    {
      var key := CardKey(card);
      var next := owned;
      if key in next && next[key] {
        next := next - {key};
      } else {
        next := next[key := true];
      }
      owned := next;
    }

    /** `setEntireGroup`: the ledger replaced by what the updater makes of it. */
    method SetEntireGroup(cardsInSet: seq<Card>, value: bool)
      modifies this
      ensures owned == GroupSet(old(owned), cardsInSet, value)
      ensures cards == old(cards) && storageError == old(storageError)
    {
      owned := SetGroupUpdater(owned, cardsInSet, value);
    }

    /** `handleImport`: no file leaves everything alone; a file that does not
        parse reports the parser's message; an invalid payload reports
        "Invalid tracker file"; a valid one replaces the ledger with its
        sanitised `owned` field and clears the warning. */
    method HandleImport(file: Option<ImportFile>)
      modifies this
      ensures file.None? ==> owned == old(owned) && storageError == old(storageError)
      ensures file.Some? && file.value.Unparsable? ==>
        owned == old(owned) && storageError == Some(file.value.message)
      ensures file.Some? && file.value.Parsed? ==>
        match ImportOwned(file.value.value)
        case Success(imported) => owned == imported && storageError == None
        case Failure(message) => owned == old(owned) && storageError == Some(message)
      ensures cards == old(cards)
    {
      if file.None? {
        return;
      }
      match file.value
      case Unparsable(message) =>
        storageError := Some(message);
      case Parsed(parsed) =>
        if !Truthy(parsed) || !IsObjectType(parsed) || !TruthyOpt(Property(parsed, "owned")) {
          storageError := Some(InvalidTrackerFile);
        } else {
          owned := Sanitize(Property(parsed, "owned").value);
          storageError := None;
        }
    }

    /** The mount effect reading browser storage: nothing saved (or an empty
        string) changes nothing; text that does not parse shows the
        "could not read" warning; a parsed value restores the ledger when it
        passes the same test as an import and is silently ignored otherwise. */
    method LoadSaved(saved: Option<ImportFile>)
      modifies this
      ensures saved.None? ==> owned == old(owned) && storageError == old(storageError)
      ensures saved.Some? && saved.value.Unparsable? ==>
        owned == old(owned) && storageError == Some(CouldNotRead)
      ensures saved.Some? && saved.value.Parsed? ==>
        storageError == old(storageError) &&
        match ImportOwned(saved.value.value)
        case Success(restored) => owned == restored
        case Failure(_) => owned == old(owned)
      ensures cards == old(cards)
    {
      if saved.None? {
        return;
      }
      match saved.value
      case Unparsable(_) =>
        storageError := Some(CouldNotRead);
      case Parsed(parsed) =>
        if Truthy(parsed) && IsObjectType(parsed) && TruthyOpt(Property(parsed, "owned")) {
          owned := Sanitize(Property(parsed, "owned").value);
        }
    }

    /** The effect writing the ledger to browser storage after every change:
        the write itself is left out; a failed write shows the "could not
        save" warning. */
    method Persist(writeFailed: bool) returns (written: Json)
      modifies this
      ensures written == Envelope(owned)
      ensures ImportOwned(written) == Success(owned)
      ensures storageError == if writeFailed then Some(CouldNotSave) else old(storageError)
      ensures cards == old(cards) && owned == old(owned)
    {
      written := Payload();
      if writeFailed {
        storageError := Some(CouldNotSave);
      }
    }

    /** `handleReset`: the ledger becomes empty. */
    method HandleReset()
      modifies this
      ensures owned == map[]
      ensures cards == old(cards) && storageError == old(storageError)
    {
      owned := map[];
    }

    /** The payload written to browser storage and to the export file;
        importing it gives the current ledger back. */
    function Payload(): (payload: Json)
      reads this
      ensures Property(payload, "version") == Some(JNumber(EnvelopeVersion))
      ensures ImportOwned(payload) == Success(owned)
    {
      ImportEnvelopeRoundTrip(owned);
      Envelope(owned)
    }

    /** "Owned: n / total". */
    function OwnedSummary(): (counts: (nat, nat))
      reads this
      ensures counts.0 <= counts.1 == |cards|
    {
      (OwnedCount(cards, owned), |cards|)
    }
  }

  /** The outcome of reading and parsing the chosen file. */
  datatype ImportFile = Unparsable(message: string) | Parsed(value: Json)
}
