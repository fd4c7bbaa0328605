/** The charts page: character names turned into image slugs, the layered
    background-image value built from a slug, and the top-ten selections the
    bar lists and pie charts draw. */
module Charts {
  import opened Strings
  import opened Sequences
  import opened Distribution

  // ---------------------------------------------------------------------------
  // slugify
  // ---------------------------------------------------------------------------

  /** `[a-z0-9]`. */
  predicate IsSlugChar(c: char)
  {
    'a' <= c <= 'z' || '0' <= c <= '9'
  }

  predicate NotSlugChar(c: char)
  {
    !IsSlugChar(c)
  }

  /** `replace(/[^a-z0-9]+/g, "-")`: every maximal run of other characters
      becomes a single '-'. The result keeps the characters of `[a-z0-9]`,
      holds no other character than '-', never two '-' in a row, and starts
      with '-' exactly when `s` starts with a character outside `[a-z0-9]`. */
  function CollapseRuns(s: string): (r: string)
    ensures forall i :: 0 <= i < |r| ==> IsSlugChar(r[i]) || r[i] == '-'
    ensures forall i :: 0 <= i < |r| - 1 ==> r[i] == '-' ==> r[i + 1] != '-'
    ensures |r| == 0 <==> |s| == 0
    ensures |r| > 0 ==> (r[0] == '-' <==> !IsSlugChar(s[0]))
    decreases |s|
  {
    if |s| == 0 then ""
    else if IsSlugChar(s[0]) then [s[0]] + CollapseRuns(s[1..])
    else
      var run := LeadingRun(s, NotSlugChar);
      var rest := CollapseRuns(s[|run|..]);
      assert |rest| > 0 ==> rest[0] != '-';
      "-" + rest
  }

  /** `replace(/(^-|-$)/g, "")`: one '-' removed at the start and one at the
      end. */
  function StripDashes(s: string): (r: string)
    ensures |s| - 2 <= |r| <= |s|
    ensures |s| > 0 && s[0] == '-' ==> |r| < |s| && r == s[1..1 + |r|]
    ensures (|s| == 0 || s[0] != '-') ==> r == s[..|r|]
    ensures (|s| == 0 || (s[0] != '-' && s[|s| - 1] != '-')) ==> r == s
    ensures |s| > 1 && s[0] == '-' && s[|s| - 1] == '-' ==> r == s[1..|s| - 1]
  {
    var t := if |s| > 0 && s[0] == '-' then s[1..] else s;
    if |t| > 0 && t[|t| - 1] == '-' then t[..|t| - 1] else t
  }

  /** What `slugify` can return: a non-empty string of `[a-z0-9]` and '-'
      with no leading, trailing or doubled '-'. */
  predicate IsSlug(s: string)
  {
    && |s| > 0
    && (forall i :: 0 <= i < |s| ==> IsSlugChar(s[i]) || s[i] == '-')
    && (forall i :: 0 <= i < |s| - 1 ==> s[i] == '-' ==> s[i + 1] != '-')
    && s[0] != '-'
    && s[|s| - 1] != '-'
  }

  /** `slugify`: lower-case, collapse every run outside `[a-z0-9]` into '-',
      strip a leading and a trailing '-', and fall back to "unknown" when
      nothing is left. */
  function Slugify(value: string): (slug: string)
    ensures IsSlug(slug)
  {
    var collapsed := CollapseRuns(Lower(value));
    var stripped := StripDashes(collapsed);
    if stripped == "" then "unknown" else stripped
  }

  /** A slug is its own slug. */
  lemma SlugFixed(s: string)
    requires IsSlug(s)
    ensures Slugify(s) == s
  {
    assert Lower(s) == s;
    CollapseSlug(s);
  }

  /** On a string of `[a-z0-9]` and single '-', collapsing changes nothing. */
  lemma {:induction false} CollapseSlug(s: string)
    requires forall i :: 0 <= i < |s| ==> IsSlugChar(s[i]) || s[i] == '-'
    requires forall i :: 0 <= i < |s| - 1 ==> s[i] == '-' ==> s[i + 1] != '-'
    ensures CollapseRuns(s) == s
    decreases |s|
  {
    if |s| > 0 {
      if IsSlugChar(s[0]) {
        CollapseSlug(s[1..]);
        assert [s[0]] + s[1..] == s;
      } else {
        var run := LeadingRun(s, NotSlugChar);
        assert |run| >= 1;
        assert |s| > 1 ==> IsSlugChar(s[1]);
        assert |run| == 1;
        CollapseSlug(s[1..]);
        assert "-" + s[1..] == s;
      }
    }
  }

  /** `slugify` is idempotent. */
  lemma SlugifyIdempotent(value: string)
    ensures Slugify(Slugify(value)) == Slugify(value)
  {
    SlugFixed(Slugify(value));
  }

  /** Collapsing keeps the letters and digits, in order. */
  lemma {:induction false} CollapseKeepsAlphanumerics(s: string)
    ensures Filter(CollapseRuns(s), IsSlugChar) == Filter(s, IsSlugChar)
    decreases |s|
  {
    if |s| > 0 {
      if IsSlugChar(s[0]) {
        CollapseKeepsAlphanumerics(s[1..]);
        assert ([s[0]] + CollapseRuns(s[1..]))[1..] == CollapseRuns(s[1..]);
      } else {
        var tail := s[|LeadingRun(s, NotSlugChar)|..];
        CollapseRunStep(s);
        CollapseKeepsAlphanumerics(tail);
        assert ("-" + CollapseRuns(tail))[1..] == CollapseRuns(tail);
      }
    }
  }

  /** A leading run of other characters becomes one '-' and holds no letter
      or digit. */
  lemma CollapseRunStep(s: string)
    requires |s| > 0 && !IsSlugChar(s[0])
    ensures CollapseRuns(s) == "-" + CollapseRuns(s[|LeadingRun(s, NotSlugChar)|..])
    ensures Filter(s, IsSlugChar) == Filter(s[|LeadingRun(s, NotSlugChar)|..], IsSlugChar)
  {
    var run := LeadingRun(s, NotSlugChar);
    var tail := s[|run|..];
    assert s == run + tail;
    FilterAppend(run, tail, IsSlugChar);
    FilterAllOrNone(run, IsSlugChar);
  }

  /** Stripping dashes removes no letter or digit. */
  lemma StripKeepsAlphanumerics(s: string)
    ensures Filter(StripDashes(s), IsSlugChar) == Filter(s, IsSlugChar)
  {
    var t := if |s| > 0 && s[0] == '-' then s[1..] else s;
    if |s| > 0 && s[0] == '-' {
      assert s[1..] == t;
    }
    if |t| > 0 && t[|t| - 1] == '-' {
      LastDashIsDropped(t[..|t| - 1]);
      assert t == t[..|t| - 1] + "-";
    }
  }

  /** A '-' at the end holds no letter or digit. */
  lemma LastDashIsDropped(a: string)
    ensures Filter(a + "-", IsSlugChar) == Filter(a, IsSlugChar)
  {
    FilterAppend(a, "-", IsSlugChar);
    assert "-"[1..] == [];
  }

  /** The slug holds exactly the letters and digits of the lower-cased name,
      in order, unless there are none, in which case it is "unknown". */
  lemma SlugAlphanumerics(value: string)
    ensures Filter(Lower(value), IsSlugChar) != [] ==>
      Filter(Slugify(value), IsSlugChar) == Filter(Lower(value), IsSlugChar)
    ensures Filter(Lower(value), IsSlugChar) == [] ==> Slugify(value) == "unknown"
  {
    var collapsed := CollapseRuns(Lower(value));
    CollapseKeepsAlphanumerics(Lower(value));
    StripKeepsAlphanumerics(collapsed);
  }

  // ---------------------------------------------------------------------------
  // getImageStack
  // ---------------------------------------------------------------------------

  const ImageDirectory: string := "/character-images/"

  /** The fallback images for a slug, most preferred first. */
  function ImageSources(slug: string): (sources: seq<string>)
  {
    [ ImageDirectory + slug + ".webp",
      ImageDirectory + slug + ".png",
      ImageDirectory + slug + ".jpg",
      ImageDirectory + slug + ".svg",
      ImageDirectory + "placeholder.svg" ]
  }

  /** `url("…")`. */
  function Layer(url: string): string
  {
    "url(\"" + url + "\")"
  }

  /** `sources.map((url) => `url("${url}")`)`. */
  function Layers(title: string): (layers: seq<string>)
    ensures |layers| == 5
    ensures forall i :: 0 <= i < 5 ==> layers[i] == Layer(ImageSources(Slugify(title))[i])
  {
    var sources := ImageSources(Slugify(title));
    seq(5, i requires 0 <= i < 5 => Layer(sources[i]))
  }

  /** `getImageStack`: the five layers joined by ", ". */
  function ImageStack(title: string): string
  {
    Join(Layers(title), ", ")
  }

  /** Read back with `split(",")`, the value is exactly five layers, in
      fallback order (`.webp`, `.png`, `.jpg`, `.svg`, then the placeholder),
      each after the first preceded by one space. */
  lemma ImageStackLayers(title: string)
    ensures Split(ImageStack(title), ',') ==
      [Layers(title)[0]] + PrefixEach(Layers(title)[1..], " ")
  {
    var layers := Layers(title);
    var parts := [layers[0]] + PrefixEach(layers[1..], " ");
    JoinPadded(layers, ',', " ");
    assert ", " == [','] + " ";
    SlugHasNoComma(Slugify(title));
    forall i | 0 <= i < 5
      ensures ',' !in layers[i]
    {
      LayerHasNoComma(ImageSources(Slugify(title))[i]);
    }
    forall i | 0 <= i < |parts|
      ensures ',' !in parts[i]
    {
      if i > 0 {
        assert parts[i] == " " + layers[i];
      }
    }
    SplitJoin(parts, ',');
  }

  lemma LayerHasNoComma(url: string)
    requires ',' !in url
    ensures ',' !in Layer(url)
  {
  }

  lemma SlugHasNoComma(slug: string)
    requires IsSlug(slug)
    ensures ',' !in slug
    ensures forall i :: 0 <= i < 5 ==> ',' !in ImageSources(slug)[i]
  {
  }

  // ---------------------------------------------------------------------------
  // Top-ten selections
  // ---------------------------------------------------------------------------

  const Palette: seq<string> := [
    "#3b82f6", "#06b6d4", "#10b981", "#f59e0b", "#ef4444",
    "#a855f7", "#6366f1", "#ec4899", "#14b8a6", "#f97316" ]

  /** The ten palette colours are different from each other. */
  lemma PaletteDistinct()
    ensures forall i, j :: 0 <= i < j < |Palette| ==> Palette[i] != Palette[j]
  {
    var codes := seq(|Palette|, i requires 0 <= i < |Palette| => Palette[i][1] as int * 256 + Palette[i][2] as int);
    assert codes == [
      '3' as int * 256 + 'b' as int, '0' as int * 256 + '6' as int, '1' as int * 256 + '0' as int,
      'f' as int * 256 + '5' as int, 'e' as int * 256 + 'f' as int, 'a' as int * 256 + '8' as int,
      '6' as int * 256 + '3' as int, 'e' as int * 256 + 'c' as int, '1' as int * 256 + '4' as int,
      'f' as int * 256 + '9' as int ];
    forall i, j | 0 <= i < j < |Palette|
      ensures Palette[i] != Palette[j]
    {
      assert codes[i] != codes[j];
    }
  }

  /** `palette[idx % palette.length]`. */
  function PositionColour(idx: nat): string
  {
    Palette[idx % |Palette|]
  }

  /** The first ten positions get ten different colours. */
  lemma PositionColoursDistinct()
    ensures |Palette| == 10
    ensures forall i, j :: 0 <= i < j < 10 ==> PositionColour(i) != PositionColour(j)
  {
    PaletteDistinct();
    forall i, j | 0 <= i < j < 10
      ensures PositionColour(i) != PositionColour(j)
    {
      assert i % 10 == i && j % 10 == j;
    }
  }

  /** `Object.entries(data).sort(([, a], [, b]) => b - a).slice(0, 10)`: at
      most ten entries of the data, largest values first, and no entry left
      out has a larger value than one kept. */
  function TopTen(entries: seq<Entry>): (top: seq<Entry>)
    ensures |top| == if |entries| <= 10 then |entries| else 10
    ensures multiset(top) <= multiset(entries)
    ensures |entries| <= 10 ==> multiset(top) == multiset(entries)
    ensures forall i, j :: 0 <= i < j < |top| ==> top[i].1 >= top[j].1
    ensures forall e, t :: e in multiset(entries) - multiset(top) && t in top ==> e.1 <= t.1
  {
    var sorted := ByValueDescending(entries);
    TakeSorted(sorted, 10);
    Take(sorted, 10)
  }

  /** `entries[0]?.[1] ?? 0`: the largest listed value, or 0 with no entries;
      it is at least every value of the data. */
  function MaxValue(entries: seq<Entry>): (m: int)
    ensures |entries| == 0 ==> m == 0
    ensures |entries| > 0 ==> exists e :: e in entries && e.1 == m
    ensures forall e :: e in entries ==> e.1 <= m
  {
    var top := TopTen(entries);
    if |top| == 0 then 0
    else
      forall e | e in entries
        ensures e.1 <= top[0].1
      {
        if e !in top {
          assert e in multiset(entries) - multiset(top);
        }
      }
      assert top[0] in multiset(entries);
      top[0].1
  }

  /** `entries.findIndex(([entryName]) => entryName === name)`. */
  function FindIndex(entries: seq<Entry>, name: string): (idx: int)
    ensures -1 <= idx < |entries|
    ensures idx == -1 <==> forall i :: 0 <= i < |entries| ==> entries[i].0 != name
    ensures idx >= 0 ==> entries[idx].0 == name && forall i :: 0 <= i < idx ==> entries[i].0 != name
    decreases |entries|
  {
    if |entries| == 0 then -1
    else if entries[0].0 == name then 0
    else
      var rest := FindIndex(entries[1..], name);
      assert forall i :: 1 <= i < |entries| ==> entries[i] == entries[1..][i - 1];
      if rest == -1 then -1 else rest + 1
  }

  /** The bar list's colours: each bar takes the palette colour of the first
      position holding its name. */
  function BarColours(entries: seq<Entry>): (colours: seq<string>)
    ensures |colours| == |TopTen(entries)|
  {
    var top := TopTen(entries);
    seq(|top|, i requires 0 <= i < |top| => PositionColour(FindIndex(top, top[i].0)))
  }

  /** With the distinct names of a distribution, the bars and the pie slices
      give every name the same colour, and no two bars share one. */
  lemma BarAndSliceColoursAgree(entries: seq<Entry>)
    requires DistinctNames(entries)
    ensures forall i :: 0 <= i < |BarColours(entries)| ==> BarColours(entries)[i] == Slices(entries)[i].color
    ensures forall i, j :: 0 <= i < j < |BarColours(entries)| ==> BarColours(entries)[i] != BarColours(entries)[j]
  {
    var top := TopTen(entries);
    SubMultisetDistinctNames(top, entries);
    forall i | 0 <= i < |top|
      ensures FindIndex(top, top[i].0) == i
    {
    }
  }

  /** The "No data available." message of a bar list or pie chart shows
      exactly when the data has no entries. */
  lemma NoDataIffEmpty(entries: seq<Entry>)
    ensures TopTen(entries) == [] <==> entries == []
  {
  }

  /** One pie slice: its name, its value and its colour. The percentages and
      angles are not modelled. */
  datatype Slice = Slice(name: string, value: int, color: string)

  /** The pie chart's slices: the top ten, each coloured by its position. */
  function Slices(entries: seq<Entry>): (slices: seq<Slice>)
    ensures |slices| == |TopTen(entries)| <= |Palette|
    ensures forall i :: 0 <= i < |slices| ==>
      slices[i].name == TopTen(entries)[i].0 && slices[i].value == TopTen(entries)[i].1
    ensures forall i, j :: 0 <= i < j < |slices| ==> slices[i].color != slices[j].color
  {
    var top := TopTen(entries);
    PositionColoursDistinct();
    seq(|top|, i requires 0 <= i < |top| => Slice(top[i].0, top[i].1, PositionColour(i)))
  }

  function SliceTotal(slices: seq<Slice>): int
    decreases |slices|
  {
    if |slices| == 0 then 0 else slices[0].value + SliceTotal(slices[1..])
  }

  /** The number in the middle of the pie: the sum of the slice values. */
  function PieCentreTotal(entries: seq<Entry>): (total: int)
    ensures total == SumValues(TopTen(entries))
    ensures |entries| <= 10 ==> total == SumValues(entries)
  {
    var slices := Slices(entries);
    SliceTotalIsSum(slices, TopTen(entries));
    TopTenAll(entries);
    SliceTotal(slices)
  }

  lemma {:induction false} SliceTotalIsSum(slices: seq<Slice>, top: seq<Entry>)
    requires |slices| == |top|
    requires forall i :: 0 <= i < |slices| ==> slices[i].value == top[i].1
    ensures SliceTotal(slices) == SumValues(top)
    decreases |slices|
  {
    if |slices| > 0 {
      SliceTotalIsSum(slices[1..], top[1..]);
    }
  }

  /** With ten entries or fewer, the selection is the whole data, reordered. */
  lemma TopTenAll(entries: seq<Entry>)
    ensures |entries| <= 10 ==> SumValues(TopTen(entries)) == SumValues(entries)
  {
    SumValuesSort(entries, Descending());
  }
}
