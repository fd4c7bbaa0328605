/** The sets page: the set codes by category, each tile's image with its
    `.webp` then `.png` fallback, and the link that opens the cards page
    filtered to the set. */
module Sets {
  import opened Wrappers
  import opened Strings
  import opened Sequences
  import opened Catalogue
  import Cards

  /** The categories in display order, each with its set codes. */
  const Categories: seq<(string, seq<string>)> := [
    ("Booster Packs", ["BP01", "BP02", "BP03", "BP04", "BP05"]),
    ("Structure Decks", ["SD01", "SD02", "SD03", "EXD01"]),
    ("Promos", ["PR"])
  ]

  /** Every code on the page, category by category. */
  function AllCodes(categories: seq<(string, seq<string>)>): (codes: seq<string>)
    ensures forall code :: code in codes <==> exists i :: 0 <= i < |categories| && code in categories[i].1
    decreases |categories|
  {
    if |categories| == 0 then []
    else
      var rest := AllCodes(categories[1..]);
      assert forall i :: 1 <= i < |categories| ==> categories[i] == categories[1..][i - 1];
      categories[0].1 + rest
  }

  /** The sets page lists exactly the codes the cards page offers in its set
      filter, in the same order. */
  lemma CodesMatchSetOptions()
    ensures AllCodes(Categories) == Cards.SetOptions
  {
    assert Categories[1..][1..][1..] == [];
  }

  /** The first image tried. */
  function WebpSource(code: string): (src: string)
    ensures EndsWith(src, ".webp")
  {
    "/sets_images/" + code + ".webp"
  }

  /** The fallback image. */
  function PngSource(code: string): (src: string)
    ensures !EndsWith(src, ".webp")
  {
    var src := "/sets_images/" + code + ".png";
    assert src[|src| - 4..] == ".png";
    assert src[|src| - 5..][1..] == ".png";
    src
  }

  /** `handleError`, as a function of the tile's state `(imgSrc, error)`: a
      failed `.webp` image switches to the `.png` one; any other failure
      raises the error flag. */
  function AfterError(code: string, src: string, error: bool): (next: (string, bool))
    ensures EndsWith(src, ".webp") ==> next == (PngSource(code), error)
    ensures !EndsWith(src, ".webp") ==> next == (src, true)
  {
    if EndsWith(src, ".webp") then (PngSource(code), error) else (src, true)
  }

  /** The tile's state after `n` image failures. */
  function AfterFailures(code: string, n: nat): (state: (string, bool))
    ensures state.0 == WebpSource(code) || state.0 == PngSource(code)
    ensures state.1 ==> state.0 == PngSource(code)
    decreases n
  {
    if n == 0 then (WebpSource(code), false)
    else
      var prev := AfterFailures(code, n - 1);
      AfterError(code, prev.0, prev.1)
  }

  /** The fallback order: `.webp` first, `.png` after one failure, the code
      as text from the second failure on. */
  lemma {:induction false} FallbackOrder(code: string, n: nat)
    ensures n == 0 ==> AfterFailures(code, n) == (WebpSource(code), false)
    ensures n == 1 ==> AfterFailures(code, n) == (PngSource(code), false)
    ensures n >= 2 ==> AfterFailures(code, n) == (PngSource(code), true)
    decreases n
  {
    if n > 0 {
      FallbackOrder(code, n - 1);
    }
  }

  /** What a tile shows: its image, or the set code once both images have
      failed. */
  datatype Tile = Image(src: string) | CodeText(code: string)

  function TileContent(code: string, src: string, error: bool): (tile: Tile)
    ensures error <==> tile.CodeText?
    ensures tile.CodeText? ==> tile.code == code
    ensures tile.Image? ==> tile.src == src
  {
    if error then CodeText(code) else Image(src)
  }

  /** A tile shows an image until its second failure and its code from then
      on. */
  lemma TileAfterFailures(code: string, n: nat)
    ensures n < 2 ==> TileContent(code, AfterFailures(code, n).0, AfterFailures(code, n).1).Image?
    ensures n >= 2 ==> TileContent(code, AfterFailures(code, n).0, AfterFailures(code, n).1) == CodeText(code)
  {
    FallbackOrder(code, n);
  }

  /** The state of one `SetItem` tile. */
  class SetItem {
    const setCode: string
    var imgSrc: string
    var error: bool
    /** How many image failures the tile has seen. */
    ghost var failures: nat

    ghost predicate Valid()
      reads this
    {
      (imgSrc, error) == AfterFailures(setCode, failures)
    }

    constructor(code: string)
      ensures setCode == code && failures == 0 && Valid()
      ensures imgSrc == WebpSource(code) && !error
    {
      setCode := code;
      imgSrc := WebpSource(code);
      error := false;
      failures := 0;
    }

    /** `handleError`. */
    method HandleError()
      requires Valid()
      modifies this
      ensures failures == old(failures) + 1 && Valid()
      ensures (imgSrc, error) == AfterError(setCode, old(imgSrc), old(error))
    {
      if EndsWith(imgSrc, ".webp") {
        imgSrc := PngSource(setCode);
      } else {
        error := true;
      }
      failures := failures + 1;
    }

    /** What the tile currently shows. */
    function Content(): (tile: Tile)
      reads this
      ensures tile.CodeText? <==> error
      ensures tile.CodeText? ==> tile.code == setCode
      ensures tile.Image? ==> tile.src == imgSrc
    {
      TileContent(setCode, imgSrc, error)
    }
  }

  /** The link of a tile: the cards page with the set as query parameter. */
  function LinkTarget(code: string): (url: string)
    ensures StartsWith(url, "/?set=")
  {
    "/?set=" + code
  }

  /** Following a tile's link opens the cards page with exactly that set
      filter, for every code on the page. */
  lemma LinkSelectsSet(code: string)
    requires code in AllCodes(Categories)
    ensures Cards.QueryParam(LinkTarget(code), "set") == Some(code)
    ensures Cards.InitialFilters(Cards.QueryParam(LinkTarget(code), "set")) == map["set" := code]
  {
    CodesMatchSetOptions();
    CodesHaveNoAmpersand(code);
    assert LinkTarget(code) == "/" + "?" + "set" + "=" + code;
    Cards.QueryParamRoundTrip("/", "set", code);
  }

  /** No set code contains the '&' that separates query parameters. */
  lemma CodesHaveNoAmpersand(code: string)
    requires code in Cards.SetOptions
    ensures '&' !in code
  {
  }

  /** ... and the cards page then asks the server for the unfiltered listing
      and shows only the cards whose number contains the code. */
  lemma LinkShowsSetCards(code: string, data: seq<Card>)
    requires code in AllCodes(Categories)
    ensures Cards.RequestFor("", Cards.InitialFilters(Cards.QueryParam(LinkTarget(code), "set"))) ==
      Cards.ListRequest(Cards.ActiveFilters(map[]))
    ensures Cards.DisplayedCards(data, Cards.SetFilter(Cards.InitialFilters(Cards.QueryParam(LinkTarget(code), "set")))) ==
      Filter(data, Cards.NumberIncludes(code))
  {
    LinkSelectsSet(code);
    Cards.SetFilterIsClientSide(map[], code);
    assert map[]["set" := code] == map["set" := code];
  }
}
