/**
 * `scrapeUrlMetadata` over an abstract parsed page: the precedence of the
 * metadata sources, the image list, the keywords and the paragraph text.
 * The HTTP request and the HTML parse are a parameter: the parsed page, or
 * `None` when either fails.
 */
module ScraperService {
  import opened Optional
  import opened Strings
  import opened Sorting
  import opened GeminiService

  /** The parts of the parsed page the scraper reads. `attribute` maps a
      selector's name to the attribute the scraper reads from the first
      element it matches ("og:title" for the `content` of
      `meta[property="og:title"]`, "icon" for the `href` of
      `link[rel="icon"]`, ...); a missing key is a missing element or
      attribute. */
  datatype Page = Page(
    attribute: map<string, string>,
    titleText: Option<string>,         // `textContent` of <title>; None without one
    imageSources: seq<Option<string>>, // the `src` of each <img>, in document order
    paragraphs: seq<string>)           // `textContent || ''` of each <p>, in document order

  datatype ScrapedMetadata = ScrapedMetadata(
    title: string,
    description: string,
    images: seq<string>,
    text: string,
    favicon: Option<string>,
    author: Option<string>,
    keywords: seq<string>)

  const ImageLimit: nat := 10
  const TextLimit: nat := 5000

  function Attribute(page: Page, name: string): (r: Option<string>)
    ensures r.Some? <==> name in page.attribute
    ensures r.Some? ==> r.value == page.attribute[name]
  {
    if name in page.attribute then Some(page.attribute[name]) else None
  }

  /** The first truthy of og:title, twitter:title and the <title> text, else
      "Untitled", trimmed. */
  function Title(page: Page): (r: string)
    ensures Truthy(Attribute(page, "og:title")) ==> r == Trim(page.attribute["og:title"])
    ensures !Truthy(Attribute(page, "og:title")) && Truthy(Attribute(page, "twitter:title")) ==>
              r == Trim(page.attribute["twitter:title"])
    ensures !Truthy(Attribute(page, "og:title")) && !Truthy(Attribute(page, "twitter:title")) ==>
              r == Trim(OrElse(page.titleText, "Untitled"))
    ensures r == [] || (!IsSpace(r[0]) && !IsSpace(r[|r| - 1]))
  {
    if Truthy(Attribute(page, "og:title")) then Trim(page.attribute["og:title"])
    else if Truthy(Attribute(page, "twitter:title")) then Trim(page.attribute["twitter:title"])
    else Trim(OrElse(page.titleText, "Untitled"))
  }

  /** A truthy og:title made only of whitespace wins and is trimmed to "",
      even when a later source has a title. */
  lemma BlankTitle(page: Page)
    requires "og:title" in page.attribute && page.attribute["og:title"] != ""
    requires forall i :: 0 <= i < |page.attribute["og:title"]| ==> IsSpace(page.attribute["og:title"][i])
    ensures Title(page) == ""
  {
    var t := page.attribute["og:title"];
    assert TrimStart(t) == [];
  }

  /** The first truthy of og:description, twitter:description and the meta
      description, else "", trimmed. */
  function Description(page: Page): (r: string)
    ensures Truthy(Attribute(page, "og:description")) ==> r == Trim(page.attribute["og:description"])
    ensures !Truthy(Attribute(page, "og:description")) && Truthy(Attribute(page, "twitter:description")) ==>
              r == Trim(page.attribute["twitter:description"])
    ensures !Truthy(Attribute(page, "og:description")) && !Truthy(Attribute(page, "twitter:description")) ==>
              r == Trim(OrElse(Attribute(page, "description"), ""))
  {
    Trim(OrElse(Attribute(page, "og:description"),
                OrElse(Attribute(page, "twitter:description"), OrElse(Attribute(page, "description"), ""))))
  }

  /** The `src` values that are present and start with "http", in document
      order. */
  function HttpSources(sources: seq<Option<string>>): (r: seq<string>)
    ensures |r| <= |sources|
    ensures forall i :: 0 <= i < |r| ==> StartsWith(r[i], "http")
    ensures forall s :: s in r <==> Some(s) in sources && StartsWith(s, "http")
  {
    if sources == [] then []
    else
      var rest := HttpSources(sources[1..]);
      assert forall o :: o in sources <==> o == sources[0] || o in sources[1..];
      var src := sources[0];
      if Truthy(src) && StartsWith(src.value, "http") then [src.value] + rest else rest
  }

  /** og:image first when truthy, with no scheme check, then the http sources. */
  function ImageList(ogImage: Option<string>, sources: seq<Option<string>>): (r: seq<string>)
    ensures Truthy(ogImage) ==> r == [ogImage.value] + HttpSources(sources)
    ensures !Truthy(ogImage) ==> r == HttpSources(sources)
  {
    (if Truthy(ogImage) then [ogImage.value] else []) + HttpSources(sources)
  }

  /** The `images` array the scraper fills. */
  method CollectImages(ogImage: Option<string>, sources: seq<Option<string>>) returns (images: seq<string>)
    ensures images == ImageList(ogImage, sources)
  {
    images := [];
    if Truthy(ogImage) {
      images := images + [ogImage.value];
    }
    var i := 0;
    while i < |sources|
      invariant 0 <= i <= |sources|
      invariant images + HttpSources(sources[i..]) == ImageList(ogImage, sources)
    {
      var src := sources[i];
      ghost var before := images;
      if Truthy(src) && StartsWith(src.value, "http") {
        images := images + [src.value];
      }
      HttpSourcesFrom(before, sources, i, images);
      i := i + 1;
    }
  }

  /** One step of the loop: what is left to collect shrinks by the source
      that was looked at. */
  lemma HttpSourcesFrom(before: seq<string>, sources: seq<Option<string>>, i: nat, after: seq<string>)
    requires i < |sources|
    requires after == if Truthy(sources[i]) && StartsWith(sources[i].value, "http") then before + [sources[i].value] else before
    ensures after + HttpSources(sources[i + 1..]) == before + HttpSources(sources[i..])
  {
    assert sources[i..][0] == sources[i] && sources[i..][1..] == sources[i + 1..];
  }

  /** Every image after og:image starts with "http", and a source that does
      not (a relative path, say) never appears unless it is og:image. */
  lemma ImagesShape(page: Page)
    ensures forall i :: 0 <= i < |Take(ImageList(Attribute(page, "og:image"), page.imageSources), ImageLimit)| ==>
              (i == 0 && Truthy(Attribute(page, "og:image")) && Take(ImageList(Attribute(page, "og:image"), page.imageSources), ImageLimit)[i] == page.attribute["og:image"]) ||
              StartsWith(Take(ImageList(Attribute(page, "og:image"), page.imageSources), ImageLimit)[i], "http")
    ensures |Take(ImageList(Attribute(page, "og:image"), page.imageSources), ImageLimit)| <= ImageLimit
  {
    var og := Attribute(page, "og:image");
    var http := HttpSources(page.imageSources);
    var all := ImageList(og, page.imageSources);
    if Truthy(og) {
      assert forall i :: 1 <= i < |all| ==> all[i] == http[i - 1];
    }
  }

  /** The link `href` of the icon, else of the shortcut icon; missing when
      neither is truthy. */
  function Favicon(page: Page): (r: Option<string>)
    ensures r.Some? ==> r.value != ""
    ensures Truthy(Attribute(page, "icon")) ==> r == Attribute(page, "icon")
    ensures !Truthy(Attribute(page, "icon")) ==> r == TruthyOnly(Attribute(page, "shortcut icon"))
  {
    TruthyOnly(OrMaybe(Attribute(page, "icon"), Attribute(page, "shortcut icon")))
  }

  /** The author meta, else article:author; missing when neither is truthy. */
  function Author(page: Page): (r: Option<string>)
    ensures r.Some? ==> r.value != ""
    ensures Truthy(Attribute(page, "author")) ==> r == Attribute(page, "author")
    ensures !Truthy(Attribute(page, "author")) ==> r == TruthyOnly(Attribute(page, "article:author"))
  {
    TruthyOnly(OrMaybe(Attribute(page, "author"), Attribute(page, "article:author")))
  }

  /** The keywords meta split on ',' with each piece trimmed (empty pieces
      kept); none when the meta is missing or empty. */
  function Keywords(page: Page): (r: seq<string>)
    ensures !Truthy(Attribute(page, "keywords")) ==> r == []
    ensures Truthy(Attribute(page, "keywords")) ==> r == TrimAll(SplitOn(page.attribute["keywords"], ','))
  {
    MetaKeywords(TruthyOnly(Attribute(page, "keywords")))
  }

  /** The paragraph texts joined with spaces, trimmed, and cut to 5000
      characters. */
  function Text(page: Page): (r: string)
    ensures |r| <= TextLimit
    ensures r <= Trim(Join(page.paragraphs, " "))
    ensures |Trim(Join(page.paragraphs, " "))| <= TextLimit ==> r == Trim(Join(page.paragraphs, " "))
    ensures |Trim(Join(page.paragraphs, " "))| > TextLimit ==> r == Trim(Join(page.paragraphs, " "))[..TextLimit]
  {
    Prefix(Trim(Join(page.paragraphs, " ")), TextLimit)
  }

  /** `scrapeUrlMetadata`: `None` (the "Failed to scrape URL" error) when the
      page cannot be fetched or parsed. */
  method ScrapeUrlMetadata(fetched: Option<Page>) returns (r: Option<ScrapedMetadata>)
    ensures r.None? <==> fetched.None?
    ensures r.Some? ==> (
      var page := fetched.value;
      r.value.title == Title(page) && r.value.description == Description(page) &&
      r.value.images == Take(ImageList(Attribute(page, "og:image"), page.imageSources), ImageLimit) &&
      r.value.text == Text(page) && r.value.favicon == Favicon(page) && r.value.author == Author(page) &&
      r.value.keywords == Keywords(page))
  {
    if fetched.None? {
      return None;
    }
    var page := fetched.value;
    var images := CollectImages(Attribute(page, "og:image"), page.imageSources);
    return Some(ScrapedMetadata(Title(page), Description(page), Take(images, ImageLimit), Text(page),
                                Favicon(page), Author(page), Keywords(page)));
  }
}
