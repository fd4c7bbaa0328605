# Nebula card browser: a Dafny model of its page logic

This project models the logic inside the web front end of the Nebula
ULTRAMAN card database. Network calls, browser storage and rendering are
left out.

- **Collection tracker (main part).**
  - A ledger maps a card key to an "owned" flag.
  - The user edits it: toggle one card, mark or clear a whole set, import a
    file, or reset.
  - It is saved and exported as a `{ version: 1, owned }` envelope.
  - The page shows owned counts overall and per set.
  - The catalogue is grouped by set label.
- **Card badges.** Two predicates on a card number: semi-transcendent and
  transcendent.
- **Charts page.**
  - Character names become image slugs.
  - A layered background image is built from each slug.
  - The top-ten selections feed the bar lists and the pie charts.
- **Stats page.** Per-character card counts, the "Characters" figure, and
  lists sorted by descending value.
- **Cards page.**
  - The filter record sent to the server.
  - The choice between the search endpoint and the filtered listing.
  - The set filter, applied client-side.
  - The state updated by the page's handlers.
- **Sets page.**
  - The table of set codes.
  - Each tile's image fallback: `.webp`, then `.png`, then the code as text.
  - The link that opens the cards page filtered to that set.

The model follows the code: `src/pages/TrackerPage.tsx`,
`src/utils/cardMeta.ts`, `src/pages/ChartsPage.tsx`,
`src/pages/StatsPage.tsx`, `src/pages/CardsPage.tsx` and
`src/pages/SetsPage.tsx`. Some facts about the tracker code that the model
keeps:

- The ledger is a map from key to boolean.
- The envelope is always version 1.
- Keys are used exactly as written.
- `false` entries survive sanitising and import.
- Keys that no catalogue card has (orphans) are kept in the ledger. They are
  only left out of the counts. Nothing reconciles the ledger against the
  catalogue.

Several JavaScript behaviours are written out in `Strings`, `Sequences` and
`Json`:

- `trim` uses the ECMAScript whitespace set.
- `split` on one character.
- `String(n)` for an integer.
- `includes` and `endsWith`.
- `Array.prototype.sort` with a comparator, modelled as an insertion sort.
- Truthiness, and `typeof v === "object"`, which is true for arrays and
  `null`.
- `Object.entries` of an array, keyed by decimal index.

`localeCompare` is a parameter `le`, where `le(a, b)` means
`a.localeCompare(b) <= 0`. Ordering results assume `le` is total and
transitive.

Module layout:

| module | what it holds |
|---|---|
| `Wrappers` | `Option` and `Result` |
| `Strings` | the string operations listed above |
| `Sequences` | filter, take, insertion sort and its properties |
| `Json` | a parsed JSON value, its truthiness and its entries |
| `Catalogue` | the card record |
| `CardMeta` | the badge predicates |
| `Tracker` | card key, set label, sanitiser, envelope, import, ledger edits, counts, and the `TrackerPage` class |
| `Grouping` | grouping a list by key through a `Map`, as a loop and as a specification |
| `TrackerGroups` | the tracker's per-set view |
| `Distribution` | name/value entries and their descending sort |
| `Charts` | the charts page |
| `Stats` | the stats page |
| `Cards` | the cards page, including its `CardsPage` class |
| `Sets` | the sets page, including its `SetItem` class |

Every value in the ledger is a boolean after any edit, because the ledger's
type is `map<string, bool>`. Every state-changing handler is a method of a
class. Its contract gives the whole new state, as a function of the old state
and of the pure operation that the lemmas are about.

## Model

| member | source | states |
|---|---|---|
| Tracker.CardKey | src/pages/TrackerPage.tsx:30 | A card with an id is keyed by a non-empty decimal numeral. Without an id, the key is the number as written. With neither, the key is "". |
| Tracker.CardKeyIdentity | src/pages/TrackerPage.tsx:30 | Cards with ids share a ledger key exactly when their ids are equal. Cards without ids but with numbers share one exactly when their numbers are equal, with no case folding. |
| Tracker.NumberPrefix | src/pages/TrackerPage.tsx:35 | The match of `/^[A-Za-z]+\d+/` starts the number. It is letters then digits, and it is greedy: no digit follows it. With no match, every digit in the number has a non-letter before it. |
| Tracker.DisplayName | src/pages/TrackerPage.tsx:33 | There is a display name exactly when there are bundle names. It has no comma, and no whitespace at either end. |
| Tracker.Usable | src/pages/TrackerPage.tsx:34 | A display name is used when it is present, non-empty and not "-". |
| Tracker.SetLabel | src/pages/TrackerPage.tsx:32-37 | A set label is never empty, never "-", and never contains a comma. |
| Tracker.NumberLabel | src/pages/TrackerPage.tsx:35-36 | The fallback label, from the number prefix or "Unsorted", is never empty, never "-", and never contains a comma. |
| Tracker.SetLabelWithoutBundle | src/pages/TrackerPage.tsx:33-36 | A card with no bundle names is labelled by the number fallback. |
| Tracker.SetLabelFromBundle | src/pages/TrackerPage.tsx:33-36 | For any bundle list, with `first` the text before its first comma (or all of it): the label is `first` trimmed when that is non-empty and not "-", whatever follows the comma. Otherwise the label is the number fallback. |
| Tracker.BundleListShape | src/pages/TrackerPage.tsx:33 | Every bundle list has such a first part, so the previous row covers every card with bundle names. |
| Tracker.SetLabelFromNumber | src/pages/TrackerPage.tsx:34-36 | With no usable bundle name, a number made of letters, then digits, then a non-digit is labelled by its letters and digits. |
| Tracker.NumberLabelUnsorted | src/pages/TrackerPage.tsx:35-36 | The number fallback is "Unsorted" exactly when there is no number or the number does not start with letters then digits (such as "PR-107"). |
| Tracker.Sanitize | src/pages/TrackerPage.tsx:39-45 | A falsy or non-object value gives `{}`. Otherwise the result keeps exactly the boolean-valued entries, `true` and `false` alike, under their own keys and with their own values. |
| Tracker.SanitizeOwnedToJson | src/pages/TrackerPage.tsx:39-45 | Sanitising an encoded ledger returns that ledger unchanged. |
| Tracker.SanitizeIdempotent | src/pages/TrackerPage.tsx:39-45 | Sanitising twice is the same as sanitising once. |
| Tracker.SanitizeArray | src/pages/TrackerPage.tsx:40-44 | A JSON array passes the object test. Its boolean elements are kept under the decimal strings of their indices, and nothing else is kept. |
| Tracker.OwnedToJson | src/pages/TrackerPage.tsx:71 | The ledger as a JSON object: each key holds its boolean, and there are no other keys. |
| Tracker.Envelope | src/pages/TrackerPage.tsx:144 | The payload has `version` 1 and the ledger as `owned`. |
| Tracker.ImportOwned | src/pages/TrackerPage.tsx:161-165 | A value is rejected with "Invalid tracker file" exactly when it is falsy, is not an object, or has no truthy `owned`. Otherwise the result is the sanitised `owned`. |
| Tracker.ImportEnvelopeRoundTrip | src/pages/TrackerPage.tsx:161-166 | Importing a saved or exported envelope gives back the ledger it holds. |
| Tracker.ImportValidation | src/pages/TrackerPage.tsx:162-164 | Arrays, `null`, objects without `owned`, and objects whose `owned` is `false` are rejected. An object whose `owned` is a truthy non-object is accepted and gives the empty ledger. |
| Tracker.Toggled | src/pages/TrackerPage.tsx:118-129 | Toggling flips whether the key is owned and never leaves a `false` entry behind. No other key changes. |
| Tracker.ToggleTwiceRestores | src/pages/TrackerPage.tsx:122-126 | Toggling twice restores the ledger when the key was absent or `true`. |
| Tracker.ToggleTwiceDropsFalse | src/pages/TrackerPage.tsx:122-126 | Toggling twice from a `false` entry deletes that entry. |
| Tracker.GroupSet | src/pages/TrackerPage.tsx:131-141 | Marking sets every key of the group to `true`. Clearing deletes every key of the group. Keys outside the group are unchanged. |
| Tracker.SetGroupUpdater | src/pages/TrackerPage.tsx:132-139 | The updater's loop over the group, copying the ledger and then setting or deleting one key per card, returns `GroupSet` of the ledger it was given. |
| Tracker.GroupSetStep | src/pages/TrackerPage.tsx:134-138 | Handling one more card of the group sets or deletes that card's key on top of what the earlier cards did. |
| Tracker.GroupSetFoldIsGroupSet | src/pages/TrackerPage.tsx:134-138 | Doing the group card by card, each setting or deleting its key on top of the earlier cards, gives the same ledger as `GroupSet`: every key of the group is set (or deleted) and every other key keeps its entry. |
| Tracker.GroupSetCounts | src/pages/TrackerPage.tsx:131-141 | After "Mark all", every card of the set is owned. After "Clear", none is. |
| Tracker.OwnedInSet | src/pages/TrackerPage.tsx:229 | A set's owned count is at most the set's size. |
| Tracker.CountFrom | src/pages/TrackerPage.tsx:114 | The fold adds at most one per card to its accumulator. |
| Tracker.OwnedCount | src/pages/TrackerPage.tsx:113-116 | The owned count is at most the total number of cards. |
| Tracker.CountFromIsFilterLength | src/pages/TrackerPage.tsx:114 | The counting fold equals its accumulator plus the number of cards whose key maps to `true`. |
| Tracker.OwnedCountIsOwnedCards | src/pages/TrackerPage.tsx:113-116 | `ownedCount` and the `ownedInSet` filter agree on the same list of cards. |
| Tracker.CountDependsOnCatalogueKeys | src/pages/TrackerPage.tsx:114 | Two ledgers that agree on the catalogue's keys give the same count. |
| Tracker.OrphansAndFalseDoNotCount | src/pages/TrackerPage.tsx:114 | An orphan key does not change the count, whatever its value. A `false` entry counts like an absent one. |
| Tracker.TrackerPage.constructor | src/pages/TrackerPage.tsx:48-52 | The page starts with no cards, an empty ledger and no warning. |
| Tracker.TrackerPage.ReceiveCatalogue | src/pages/TrackerPage.tsx:84-86 | The catalogue is a permutation of the fetched cards, sorted by number. It is in order whenever `localeCompare` is consistent. |
| Tracker.TrackerPage.ToggleCard | src/pages/TrackerPage.tsx:118-129 | The new ledger is `Toggled` of the old one at the card's key. Nothing else changes. |
| Tracker.TrackerPage.SetEntireGroup | src/pages/TrackerPage.tsx:131-141 | The ledger becomes `GroupSet` of the old one. Nothing else changes. |
| Tracker.TrackerPage.LoadSaved | src/pages/TrackerPage.tsx:55-67 | Nothing saved changes nothing. Unparsable text shows the "could not read" warning. A parsed value restores the ledger when it passes the import test and is ignored otherwise. |
| Tracker.TrackerPage.Persist | src/pages/TrackerPage.tsx:69-77 | The envelope of the current ledger is written, and importing it gives the ledger back. A failed write shows the "could not save" warning. |
| Tracker.TrackerPage.HandleImport | src/pages/TrackerPage.tsx:156-174 | With no file, nothing changes. An unparsable file reports the parser's message. An invalid payload keeps the ledger and reports "Invalid tracker file". A valid one replaces the ledger with the sanitised `owned` and clears the warning. |
| Tracker.TrackerPage.HandleReset | src/pages/TrackerPage.tsx:176 | The ledger becomes empty. Nothing else changes. |
| Tracker.TrackerPage.Payload | src/pages/TrackerPage.tsx:144 | The payload is version 1, and importing it gives back the current ledger. |
| Tracker.TrackerPage.OwnedSummary | src/pages/TrackerPage.tsx:224 | In "Owned: n / total", n is at most the total, and the total is the number of catalogue cards. |
| TrackerGroups.Grouped | src/pages/TrackerPage.tsx:98-110 | The page's grouping equals the grouping specification applied with `getSetLabel` as the key. |
| TrackerGroups.SetChips | src/pages/TrackerPage.tsx:229-235 | There is one chip per set. Each chip's owned number is at most its size, and the size is the set's card count. |
| TrackerGroups.GroupedOwnedTotal | src/pages/TrackerPage.tsx:228-229 | The per-set owned counts add up to `ownedCount`, and the per-set sizes add up to the catalogue size. |
| TrackerGroups.GroupedPartition | src/pages/TrackerPage.tsx:98-108 | Every set is non-empty and holds exactly the cards with its label, in catalogue order. Labels do not repeat, and every card is in the set of its own label. |
| TrackerGroups.GroupedSorted | src/pages/TrackerPage.tsx:109 | When `localeCompare` is consistent, the sets are in label order. |
| Grouping.KeysInOrder | src/pages/TrackerPage.tsx:99-105 | The map's keys are in first-insertion order. Each appears once, each element's key is among them, and each key belongs to some element. |
| Grouping.Buckets | src/pages/TrackerPage.tsx:107-108 | There is one group per key, in key order. Each holds the elements with that key, in list order. |
| Grouping.Walk | src/pages/TrackerPage.tsx:99-105 | The `forEach` over the list, with its `Map` pushes, ends with first-insertion key order and each bucket equal to its specification. |
| Grouping.KeysInOrderSnoc | src/pages/TrackerPage.tsx:101-103 | One more element adds its key at the end of the key order exactly when the key is new. |
| Grouping.WalkStep | src/pages/TrackerPage.tsx:100-104 | Pushing one element keeps the map in step with the elements seen so far: its key order and every bucket. |
| Grouping.GroupWithMap | src/pages/TrackerPage.tsx:98-110 | Walking, then listing the map's entries and sorting them by key, gives the grouping specification. |
| Grouping.GroupsAreBuckets | src/pages/TrackerPage.tsx:100-105 | Each group is non-empty and holds exactly the elements of its key. |
| Grouping.GroupTitlesDistinct | src/pages/TrackerPage.tsx:99-108 | No two groups share a key. |
| Grouping.EveryElementGrouped | src/pages/TrackerPage.tsx:100-105 | Every element is in the group of its key. |
| Grouping.GroupsSorted | src/pages/TrackerPage.tsx:109 | When the comparator is consistent, the groups are sorted by key. |
| Grouping.GroupByCount | src/pages/TrackerPage.tsx:98-110 | Counting any property over the groups gives the same total as counting it over the list. |
| CardMeta.IsSemiTranscendent | src/utils/cardMeta.ts:8-11 | The upper-cased number is non-empty and in the semi-transcendent set. `SemiTranscendentIff` states it outright. |
| CardMeta.IsTranscendent | src/utils/cardMeta.ts:6-16 | The normalised number is non-empty and in the transcendent set. `TranscendentIff` states it outright. |
| CardMeta.TranscendentNumbersAreLiterals | src/utils/cardMeta.ts:4 | The upper-cased transcendent set holds exactly the three listed numbers. |
| CardMeta.SemiTranscendentIff | src/utils/cardMeta.ts:3-11 | A card is semi-transcendent exactly when it has a number whose upper-cased form is "PR-107". |
| CardMeta.TranscendentIff | src/utils/cardMeta.ts:4-16 | A card is transcendent exactly when its upper-cased number is "BP01-022", "AP(06/20) BP01-022" or "BP01-026". |
| CardMeta.CaseInsensitive | src/utils/cardMeta.ts:6-16 | Lower-casing or upper-casing the number does not change either answer. |
| CardMeta.NoNumberNoBadge | src/utils/cardMeta.ts:10-15 | A card with a missing or empty number has neither badge. |
| CardMeta.BadgesExclusive | src/utils/cardMeta.ts:3-4 | No card has both badges. |
| Charts.CollapseRuns | src/pages/ChartsPage.tsx:13 | After collapsing, only `[a-z0-9]` and '-' remain, and no '-' is doubled. The result is empty exactly when the input is, and starts with '-' exactly when the input starts with a character outside `[a-z0-9]`. |
| Charts.StripDashes | src/pages/ChartsPage.tsx:13 | At most one character goes from each end, and only a '-'. A string without a '-' at either end is unchanged. |
| Charts.Slugify | src/pages/ChartsPage.tsx:10-14 | A slug is non-empty, uses only `[a-z0-9]` and '-', and never has a leading, trailing or doubled '-'. |
| Charts.SlugFixed | src/pages/ChartsPage.tsx:10-14 | Any string of that shape is its own slug. |
| Charts.SlugifyIdempotent | src/pages/ChartsPage.tsx:10-14 | Slugifying a slug changes nothing. |
| Charts.SlugAlphanumerics | src/pages/ChartsPage.tsx:10-14 | The slug keeps the lower-cased name's letters and digits, in order. When the name has none, the slug is "unknown". |
| Charts.Layers | src/pages/ChartsPage.tsx:18-25 | There are five `url("…")` layers, one for each fallback image, in order. |
| Charts.ImageStack | src/pages/ChartsPage.tsx:16-27 | The five layers joined by ", ". `ImageStackLayers` proves that they read back in order. |
| Charts.ImageStackLayers | src/pages/ChartsPage.tsx:16-27 | Split at commas, the background value is exactly those five layers, in order: `.webp`, `.png`, `.jpg`, `.svg`, then the placeholder. Each layer after the first is preceded by one space. |
| Charts.PaletteDistinct | src/pages/ChartsPage.tsx:8 | The ten palette colours all differ. |
| Charts.PositionColoursDistinct | src/pages/ChartsPage.tsx:126 | The first ten positions get ten different colours. |
| Charts.TopTen | src/pages/ChartsPage.tsx:111-113 | There are at most ten entries, all from the data, ordered by non-increasing value. All entries are kept when there are ten or fewer. No entry left out has a larger value than one kept. |
| Charts.MaxValue | src/pages/ChartsPage.tsx:38 | The value is 0 without entries. Otherwise it is the value of some entry, and at least every value. |
| Charts.NoDataIffEmpty | src/pages/ChartsPage.tsx:100 | "No data available." shows exactly when the data has no entries. |
| Charts.FindIndex | src/pages/ChartsPage.tsx:51 | The result is the first position with the name, or -1 when no entry has it. |
| Charts.BarColours | src/pages/ChartsPage.tsx:51-52 | One colour per top-ten entry: the palette colour of the first position holding that entry's name. |
| Charts.BarAndSliceColoursAgree | src/pages/ChartsPage.tsx:51-52 | When the names are distinct, each bar's colour is the colour of the pie slice at the same position, and no two bars share a colour. |
| Charts.Slices | src/pages/ChartsPage.tsx:117-130 | There is one slice per top-ten entry, with its name and value. No two slices share a colour. |
| Charts.PieCentreTotal | src/pages/ChartsPage.tsx:181 | The centre number is the sum of the top-ten values. With ten entries or fewer, it is the sum of all values. |
| Charts.TopTenAll | src/pages/ChartsPage.tsx:111-114 | With ten entries or fewer, the selection holds all of the data, so it has the same sum. |
| Distribution.ByValueDescending | src/pages/StatsPage.tsx:32-33 | The result is a permutation of the entries, ordered by non-increasing value. |
| Distribution.DescendingConsistent | src/pages/StatsPage.tsx:33 | The comparator `b - a` on integer values is total and transitive. |
| Distribution.SumValuesSort | src/pages/ChartsPage.tsx:114 | Sorting does not change the sum of the values. |
| Distribution.SubMultisetDistinctNames | src/pages/ChartsPage.tsx:111-113 | A selection from entries with distinct names also has distinct names. |
| Stats.CharacterDistribution | src/pages/StatsPage.tsx:54-65 | Without cards, the distribution is `{}`. |
| Stats.TallyFrom | src/pages/StatsPage.tsx:56-64 | The fold keeps every name already counted, and never lowers a count. |
| Stats.TallyFromCounts | src/pages/StatsPage.tsx:56-64 | The fold adds, for each valid name, the number of cards with that name, and adds nothing under any other name. |
| Stats.TallyStep | src/pages/StatsPage.tsx:58-61 | One step of the fold adds one under the card's name when the name is present and not "-". It changes no other count, and adds only that name as a key. |
| Stats.DistributionCounts | src/pages/StatsPage.tsx:56-64 | The keys are exactly the distinct valid names. Each count is the number of cards with exactly that name. |
| Stats.InvalidNamesNotCounted | src/pages/StatsPage.tsx:58 | A card with no name, an empty name or "-" leaves the distribution unchanged. |
| Stats.TallyAppend | src/pages/StatsPage.tsx:56-64 | The fold over two lists joined together equals the fold over the second list, started from the fold over the first. |
| Stats.DistributionSum | src/pages/StatsPage.tsx:56-64 | The counts sum to the number of cards with a valid name. |
| Stats.CharactersStat | src/pages/StatsPage.tsx:125 | The "Characters" figure is the number of distinct valid names. |
| Stats.DistributionList | src/pages/StatsPage.tsx:32-42 | Every entry is shown, with nothing dropped, ordered by non-increasing value. "No data available." shows exactly when there are no entries. |
| Stats.TallyEntries | src/pages/StatsPage.tsx:32 | The entries follow the given key order, one per key, each with its count. |
| Stats.CharacterListRows | src/pages/StatsPage.tsx:137 | "By Character" has one row per character, with its card count, whatever the key enumeration order. |
| Cards.ActiveFilters | src/pages/CardsPage.tsx:283-289 | There is never a `set` entry. `publication_year` is always present: a number for a non-empty string, `undefined` otherwise. Every other filter is copied unchanged. |
| Cards.SetFilterIsClientSide | src/pages/CardsPage.tsx:284 | Setting or removing the set filter does not change what is sent to the server. |
| Cards.FilterChangeIsLocal | src/pages/CardsPage.tsx:283-289 | Changing one ordinary filter changes only that entry of the request. |
| Cards.RequestFor | src/pages/CardsPage.tsx:296-298 | A non-empty applied search goes to the search endpoint. Otherwise the active filters go to the listing endpoint. |
| Cards.SearchLocksFilters | src/pages/CardsPage.tsx:296-298 | While a search is applied, the filters do not affect the request. |
| Cards.DisplayedCards | src/pages/CardsPage.tsx:300-305 | With a non-empty set filter, the fetched cards whose number contains the code are kept, in order, and cards without a number are dropped. Otherwise the fetched list is shown unchanged. |
| Cards.DisplayedByOccurrence | src/pages/CardsPage.tsx:301 | A card is shown exactly when the code occurs at some position of its number. |
| Cards.InitialFilters | src/pages/CardsPage.tsx:259-262 | A non-empty `set` parameter gives `{ set: p }`. A missing or empty one gives `{}`. |
| Cards.QueryOf | src/pages/CardsPage.tsx:260 | The query is the text after the first '?' of the URL. It is empty when the URL has no '?'. |
| Cards.ParsePair | src/pages/CardsPage.tsx:260 | A pair splits at its first '=': name, '=', value give the pair back. A pair without '=' is a name with the empty value. |
| Cards.FirstValue | src/pages/CardsPage.tsx:260 | The lookup returns the value of the first pair with that name: no earlier pair has the name. It returns nothing exactly when no pair has the name. |
| Cards.QueryParam | src/pages/CardsPage.tsx:260 | `searchParams.get(name)`: the value of the first `&`-separated pair of the query with that name, or nothing when no pair has it. |
| Cards.QueryParamRoundTrip | src/pages/CardsPage.tsx:260 | A lone `name=value` after '?' reads back as that value. |
| Cards.CardsPage.constructor | src/pages/CardsPage.tsx:256-262 | Search and applied search start empty, there are no cards, and the filters come from the `set` parameter. |
| Cards.CardsPage.SetSearch | src/pages/CardsPage.tsx:56 | Typing changes only the search text. |
| Cards.CardsPage.HandleFilterChange | src/pages/CardsPage.tsx:45-47 | Only the named filter changes. |
| Cards.CardsPage.Submit | src/pages/CardsPage.tsx:348 | The applied search becomes the trimmed search text. Nothing else changes. |
| Cards.CardsPage.HandleReset | src/pages/CardsPage.tsx:317-321 | Search, applied search and filters become empty. The cards are kept. |
| Cards.CardsPage.Request | src/pages/CardsPage.tsx:296-298 | The request follows from the applied search and the filters. |
| Cards.CardsPage.StartLoad | src/pages/CardsPage.tsx:281-298 | When the effect runs, it captures the request for the current applied search and filters, and the set filter of that moment. |
| Cards.CardsPage.ReceiveCards | src/pages/CardsPage.tsx:300-305 | A response replaces the shown cards. They are the fetched ones, narrowed by the set filter captured for that request, whichever endpoint was used. |
| Sets.AllCodes | src/pages/SetsPage.tsx:5-9 | The codes listed are exactly those of the categories, category by category. |
| Sets.CodesMatchSetOptions | src/pages/SetsPage.tsx:5-9 | The sets page lists the same ten codes as the cards page's set filter, in the same order. |
| Sets.WebpSource | src/pages/SetsPage.tsx:12 | The first image tried is a `.webp`. |
| Sets.PngSource | src/pages/SetsPage.tsx:17 | The fallback image is not a `.webp`, so a second failure cannot retry it. |
| Sets.AfterError | src/pages/SetsPage.tsx:15-21 | A failure on `.webp` switches to `.png` and keeps the error flag. Any other failure keeps the source and raises the flag. |
| Sets.AfterFailures | src/pages/SetsPage.tsx:11-21 | After any number of failures the source is the `.webp` or the `.png`. The error flag is raised only on the `.png`. |
| Sets.FallbackOrder | src/pages/SetsPage.tsx:12-21 | After 0 failures the tile tries `.webp`, after 1 it tries `.png`, and from the 2nd on it is in the error state. |
| Sets.TileContent | src/pages/SetsPage.tsx:48-57 | The code is shown instead of the image exactly when the error flag is set. |
| Sets.TileAfterFailures | src/pages/SetsPage.tsx:48-57 | A tile shows an image until its second failure, and its code from then on. |
| Sets.SetItem.constructor | src/pages/SetsPage.tsx:11-13 | A tile starts on the `.webp` image with no error. |
| Sets.SetItem.HandleError | src/pages/SetsPage.tsx:15-21 | Each failure advances the tile by `AfterError`. This keeps the invariant that the state is the one reached after that many failures. |
| Sets.SetItem.Content | src/pages/SetsPage.tsx:48-57 | The tile shows its code exactly when the error flag is set. |
| Sets.LinkTarget | src/pages/SetsPage.tsx:27 | A tile links to `/?set=` followed by its code. |
| Sets.LinkSelectsSet | src/pages/SetsPage.tsx:27 | For every code on the page, the cards page reads the link back as the set filter `{ set: code }`. |
| Sets.LinkShowsSetCards | src/pages/SetsPage.tsx:27 | Following a link makes an unfiltered listing request and shows only the cards whose number contains the code. |

## Left out

- Browser storage access is not modelled: the `getItem`/`setItem` calls under the key `nebula-collection-tracker`. The model keeps the envelope written and the effects' outcomes, taking "nothing saved", "unparsable" and "write failed" as inputs.
- The order in which React runs the load and persist effects (the mount-time write of `{}`, and StrictMode double effects) is not modelled.
- Network calls are not modelled: `fetchCards`, `searchCards` and `fetchStats`, with their loading and error states. Fetched card lists and distributions are inputs.
- The Blob download, the object URL, reading the chosen file and resetting the file input are not modelled. An import starts from the file's parsed value or its parse error.
- Floating-point chart maths is not modelled: bar widths, and the pie percentages, rounding and angles.
- Distribution values are integers. Non-integer numbers from the server are not modelled.
- `Number(publication_year)` is kept as an uninterpreted `NumberOf(text)`.
- Tracker.TrackerPage.ReceiveCatalogue: `localeCompare` is an abstract comparator `le`. Ordering results hold for any total, transitive `le`.
- Sequences.SortBy: the insertion sort puts each element ahead of the later elements it compares equal to, as the stable `Array.prototype.sort` does. No lemma states stability of the whole sort, so the order among equal keys is not promised.
- Tracker.CardKey: card ids are taken to be integers. `String` of a fractional id ("1.5"), of an id of 1e21 or more (exponent form) or of an id above 2^53 (rounded) is not modelled.
- Cards.CardsPage.ReceiveCards: requests are never cancelled, and the response that resolves last sets the cards. The model delivers responses one by one, each with the set filter captured for it. Which order they resolve in is an input, and the loading and error flags are not modelled.
- TrackerGroups.GroupedSorted: as above, ordering holds only when `le` is total and transitive.
- Upper- and lower-casing use ASCII case mapping only. Unicode case mapping is not modelled.
- The order in which `Object.entries` enumerates a record (integer-like keys first) is taken as an input, as a list of entries.
- Special keys of JavaScript objects, such as `__proto__` used as a ledger key or as a character name, are not modelled.
- Cards.QueryParam: no percent-decoding, and '+' is not read as a space. The set codes contain neither.
- Cards.QueryOf: a '#' fragment is not separated from the query.
- `isNoLimit` is imported by the cards page but not defined in `src/utils/cardMeta.ts`, so it is not part of this model.
- The "Total cards" and "Rarities" figures display server data with no logic of their own, so they are not modelled.
- Rendering is not modelled: layout, icons and the MUI components.
