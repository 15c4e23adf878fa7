/**
 * The URL-analysis service: fetching a page into text, images and metadata;
 * the generative-model call with its JSON-block extraction, sentiment repair
 * and fallback analysis; the word-frequency counter; and the merge of the
 * three into one result. The HTTP client, the HTML parser, URL resolution,
 * the model and `JSON.parse` are parameters.
 */
module GeminiService {
  import opened Optional
  import opened Strings
  import opened Sorting
  import opened Counting
  import opened Records
  import opened JsObject

  // ---------------------------------------------------------------- API key

  const PlaceholderKey := "your-gemini-api-key-here"

  /** The model is called only with a key that is non-empty, not the
      placeholder and at least 10 characters long. */
  predicate KeyUsable(apiKey: string) {
    apiKey != "" && apiKey != PlaceholderKey && |apiKey| >= 10
  }

  // ------------------------------------------------------- word frequency

  /** `toLowerCase()` then `replace(/[^a-z0-9\s]/g, ' ')`, one character. */
  function NormaliseChar(c: char): (r: char)
    ensures IsLowerAlpha(r) || IsDigit(r) || IsSpace(r)
    ensures IsSpace(c) ==> r == c
  {
    var l := LowerChar(c);
    if IsLowerAlpha(l) || IsDigit(l) || IsSpace(l) then l else ' '
  }

  function Normalise(content: string): (r: string)
    ensures |r| == |content|
    ensures forall i :: 0 <= i < |r| ==> r[i] == NormaliseChar(content[i])
  {
    seq(|content|, i requires 0 <= i < |content| => NormaliseChar(content[i]))
  }

  predicate LongerThan3(w: string) {
    |w| > 3
  }

  /** The tokens counted: the normalised text split on whitespace, keeping
      those longer than 3 characters. */
  function FrequencyWords(content: string): seq<string> {
    Filter(SplitWs(Normalise(content)), LongerThan3)
  }

  const Stopwords: seq<string> := [
    "that", "this", "with", "from", "have", "been", "were", "will", "would", "could",
    "should", "about", "their", "there", "these", "those", "when", "where", "which", "while"]

  predicate NotStopword(e: (string, nat)) {
    e.0 !in Stopwords
  }

  const TopWordCount: nat := 50

  /** The entries of the counter object once the stopwords are deleted, as
      `Object.entries` lists them. */
  function CountedWords(content: string): seq<(string, nat)> {
    EnumerationOrder(Filter(Tally(FrequencyWords(content)), NotStopword))
  }

  /** The entries kept for the frequency record: ranked by count, the first 50. */
  function TopWords(content: string): (r: seq<(string, nat)>)
    ensures |r| <= TopWordCount
    ensures forall e :: e in r ==> e in CountedWords(content)
    ensures forall i, j :: 0 <= i < j < |r| ==> r[i].1 >= r[j].1
  {
    RankedProperties(CountedWords(content), TopWordCount);
    Ranked(CountedWords(content), TopWordCount)
  }

  /** A key of the frequency record: longer than 3, only `[a-z0-9]`. */
  predicate IsFrequencyWord(w: string) {
    |w| > 3 && forall j :: 0 <= j < |w| ==> IsLowerAlpha(w[j]) || IsDigit(w[j])
  }

  /** `Object.entries` of a record whose keys were inserted in `order` and
      some of which were deleted since. */
  function EntriesOf(order: seq<string>, counts: map<string, nat>): seq<(string, nat)> {
    if order == [] then []
    else (if order[0] in counts then [(order[0], counts[order[0]])] else []) + EntriesOf(order[1..], counts)
  }

  /** The entries of a counter over `words` for the keys `order`: the keys
      in that order, each with its number of occurrences; over the words'
      first-seen order it is the counter of all of them. */
  function CountedOver(order: seq<string>, words: seq<string>): (r: seq<(string, nat)>)
    ensures Keys(r) == order
    ensures forall i :: 0 <= i < |r| ==> r[i].1 == Count(words, r[i].0)
    ensures order == Distinct(words) ==> r == Tally(words)
  {
    seq(|order|, i requires 0 <= i < |order| => (order[i], Count(words, order[i])))
  }

  lemma {:induction false} EntriesOfCounted(order: seq<string>, counts: map<string, nat>, words: seq<string>)
    requires forall k :: k in counts <==> k in order && k !in Stopwords
    requires forall k :: k in counts ==> counts[k] == Count(words, k)
    ensures EntriesOf(order, counts) == Filter(CountedOver(order, words), NotStopword)
  {
    if order != [] {
      var c := CountedOver(order, words);
      assert c[1..] == CountedOver(order[1..], words);
      assert forall k :: k in order[1..] ==> k in order;
      if order[0] in counts {
        assert order[0] in order;
      }
      var counts' := map k | k in counts && k in order[1..] :: counts[k];
      assert EntriesOf(order[1..], counts) == EntriesOf(order[1..], counts') by {
        EntriesOfRestrict(order[1..], counts, counts');
      }
      EntriesOfCounted(order[1..], counts', words);
    }
  }

  lemma {:induction false} EntriesOfRestrict(order: seq<string>, counts: map<string, nat>, counts': map<string, nat>)
    requires forall k :: k in order ==> (k in counts <==> k in counts')
    requires forall k :: k in order && k in counts ==> counts[k] == counts'[k]
    ensures EntriesOf(order, counts) == EntriesOf(order, counts')
  {
    if order != [] {
      assert forall k :: k in order[1..] ==> k in order;
      EntriesOfRestrict(order[1..], counts, counts');
    }
  }

  /** `calculateWordFrequency`: counts the tokens into a record in a loop,
      deletes the stopwords from it, then sorts its entries by count and keeps
      the first 50. */
  method CalculateWordFrequency(content: string) returns (frequency: seq<(string, nat)>)
    ensures frequency == EnumerationOrder(TopWords(content))
  {
    var words := FrequencyWords(content);
    var order, counts := CountOccurrences(words);
    DistinctMembersAll(words);
    var j := 0;
    while j < |Stopwords|
      invariant 0 <= j <= |Stopwords|
      invariant forall k :: k in counts <==> k in order && k !in Stopwords[..j]
      invariant forall k :: k in counts ==> counts[k] == Count(words, k)
    {
      ghost var counts0 := counts;
      counts := counts - {Stopwords[j]};
      DeleteStep(order, Stopwords[..j], Stopwords[j], counts0, counts);
      SliceSnoc(Stopwords, j);
      j := j + 1;
    }
    assert Stopwords[..j] == Stopwords;
    var entries := EntriesOf(order, counts);
    EntriesOfCounted(order, counts, words);
    assert CountedOver(order, words) == Tally(words);
    frequency := EnumerationOrder(Ranked(EnumerationOrder(entries), TopWordCount));
  }

  /** `delete f[x]` on a record holding the keys of `order` outside `done`. */
  lemma DeleteStep(order: seq<string>, done: seq<string>, x: string, counts: map<string, nat>, counts': map<string, nat>)
    requires forall k :: k in counts <==> k in order && k !in done
    requires counts' == counts - {x}
    ensures forall k :: k in counts' <==> k in order && k !in done + [x]
  {
  }

  lemma SliceSnoc<T>(s: seq<T>, j: nat)
    requires j < |s|
    ensures s[..j + 1] == s[..j] + [s[j]]
  {
  }

  lemma FrequencyWordsShape(content: string)
    ensures forall i :: 0 <= i < |FrequencyWords(content)| ==> IsFrequencyWord(FrequencyWords(content)[i])
  {
    var n := Normalise(content);
    var pieces := SplitWs(n);
    FilterFrom(pieces, LongerThan3);
    forall i | 0 <= i < |FrequencyWords(content)| ensures IsFrequencyWord(FrequencyWords(content)[i]) {
      var w := FrequencyWords(content)[i];
      assert w in pieces;
      var p :| 0 <= p < |pieces| && pieces[p] == w;
      forall j | 0 <= j < |w| ensures IsLowerAlpha(w[j]) || IsDigit(w[j]) {
        assert w[j] in n && !IsSpace(w[j]);
      }
    }
  }

  /** The keys of the frequency record are tokens that are no stopword, and
      each count is the number of occurrences of its key among the tokens. */
  lemma TopWordsCounts(content: string)
    ensures |TopWords(content)| <= 50
    ensures forall i :: 0 <= i < |TopWords(content)| ==>
              IsFrequencyWord(TopWords(content)[i].0) && TopWords(content)[i].0 !in Stopwords &&
              TopWords(content)[i].1 == Count(FrequencyWords(content), TopWords(content)[i].0) &&
              TopWords(content)[i].1 >= 1
  {
    var r := TopWords(content);
    RankedProperties(CountedWords(content), TopWordCount);
    forall i | 0 <= i < |r|
      ensures IsFrequencyWord(r[i].0) && r[i].0 !in Stopwords &&
              r[i].1 == Count(FrequencyWords(content), r[i].0) && r[i].1 >= 1
    {
      assert r[i] in r;
      TopWordsEntry(content, r[i]);
    }
  }

  /** One entry of the frequency record. */
  lemma TopWordsEntry(content: string, e: (string, nat))
    requires e in CountedWords(content)
    ensures IsFrequencyWord(e.0) && e.0 !in Stopwords && e.1 == Count(FrequencyWords(content), e.0) && e.1 >= 1
  {
    var words := FrequencyWords(content);
    var tally := Tally(words);
    FrequencyWordsShape(content);
    assert e in multiset(Filter(tally, NotStopword));
    assert e in Filter(tally, NotStopword);
    FilterFrom(tally, NotStopword);
    var k :| 0 <= k < |tally| && tally[k] == e;
    assert Keys(tally)[k] == e.0;
    assert e.0 in words;
  }

  /** The keys of the frequency record are distinct. */
  lemma TopWordsDistinct(content: string)
    ensures AllDistinct(Keys(TopWords(content)))
  {
    var words := FrequencyWords(content);
    var tally := Tally(words);
    var kept := CountedWords(content);
    var r := TopWords(content);
    TopWordsCounts(content);
    DistinctKeysDistinctEntries(tally);
    FilterDistinct(tally, NotStopword);
    PermutationDistinct(Filter(tally, NotStopword), kept);
    RankedDistinct(kept, TopWordCount);
    forall i, j | 0 <= i < j < |r| ensures Keys(r)[i] != Keys(r)[j] {
      assert r[i] != r[j];
    }
  }

  /** The kept entries are ordered by count, and keys of equal count are the
      first ones of that count in enumeration order (first-seen order, except
      that array-index keys such as "2024" come first). */
  lemma TopWordsRanked(content: string)
    ensures forall i, j :: 0 <= i < j < |TopWords(content)| ==> TopWords(content)[i].1 >= TopWords(content)[j].1
    ensures forall c: nat :: Filter(TopWords(content), HasCount(c)) <= Filter(CountedWords(content), HasCount(c))
  {
    RankedProperties(CountedWords(content), TopWordCount);
  }

  /** A token that is no stopword and is left out of the record occurs no
      more often than the 50th key. */
  lemma TopWordsComplete(content: string, w: string)
    requires w in FrequencyWords(content) && w !in Stopwords && w !in Keys(TopWords(content))
    ensures |TopWords(content)| == 50 && Count(FrequencyWords(content), w) <= TopWords(content)[49].1
  {
    var e := CountedEntry(content, w);
    var r := TopWords(content);
    forall m | 0 <= m < |r| ensures r[m] != e {
      assert Keys(r)[m] != w;
    }
    RankedLeftOut(CountedWords(content), TopWordCount, e);
  }

  /** A token that is no stopword has its entry among the counted words. */
  lemma CountedEntry(content: string, w: string) returns (e: (string, nat))
    requires w in FrequencyWords(content) && w !in Stopwords
    ensures e in CountedWords(content) && e.0 == w && e.1 == Count(FrequencyWords(content), w)
  {
    var words := FrequencyWords(content);
    var tally := Tally(words);
    assert w in Distinct(words);
    var k :| 0 <= k < |Keys(tally)| && Keys(tally)[k] == w;
    e := tally[k];
    assert e in tally && NotStopword(e);
    FilterMembers(tally, NotStopword, e);
    assert e in multiset(CountedWords(content));
  }

  // ------------------------------------------------------ model analysis

  /** What `JSON.parse` yields from the model's reply, each field possibly
      missing. */
  datatype AiAnalysis = AiAnalysis(
    title: Option<string>,
    description: Option<string>,
    summary: Option<string>,
    sentiment: Option<Sentiment>,
    keyInsights: Option<seq<string>>,
    topics: Option<seq<string>>,
    keywords: Option<seq<string>>)

  /** The prompt's variable parts: the URL and the first 3000 characters. */
  datatype Prompt = Prompt(url: string, excerpt: string)

  const ExcerptLength: nat := 3000

  function PromptFor(url: string, content: string): (p: Prompt)
    ensures p.url == url && p.excerpt <= content
    ensures |p.excerpt| == if |content| <= ExcerptLength then |content| else ExcerptLength
  {
    Prompt(url, Prefix(content, ExcerptLength))
  }

  /** The words the fallback analysis counts: lowercased, split on
      whitespace, longer than 3 characters. */
  function FallbackWords(content: string): (ws: seq<string>)
    ensures forall i :: 0 <= i < |ws| ==> |ws[i]| > 3 && NoSpace(ws[i])
  {
    FilterFrom(SplitWs(Lower(content)), LongerThan3);
    Filter(SplitWs(Lower(content)), LongerThan3)
  }

  const FallbackSentiment := Sentiment(Some(0.0), Some(0.5), Some("neutral"), Some(0.33), Some(0.33), Some(0.34))

  const FallbackTopics: seq<string> := ["General Content", "Web Analysis"]

  const FallbackSummaryLength: nat := 200

  function FallbackInsights(wordCount: nat): seq<string> {
    ["Content analyzed successfully",
     "Found " + NatToString(wordCount) + " words in content",
     "Configure Gemini API for detailed analysis",
     "Visit https://makersuite.google.com/app/apikey",
     "Add your key to backend/.env file"]
  }

  function FallbackDescription(wordCount: nat): string {
    "Analysis of " + NatToString(wordCount) + " words of content"
  }

  /** `getFallbackAnalysis`: a neutral analysis built from the text alone. */
  function FallbackAnalysis(content: string): (a: AiAnalysis)
    ensures a.title == Some("Content Analysis")
    ensures a.description == Some(FallbackDescription(|FallbackWords(content)|))
    ensures a.summary.Some? && |a.summary.value| >= 3
    ensures a.summary.Some? ==>
              (a.summary.value[|a.summary.value| - 3..] == "..." &&
               a.summary.value[..|a.summary.value| - 3] <= content &&
               |a.summary.value| == 3 + (if |content| <= FallbackSummaryLength then |content| else FallbackSummaryLength))
    ensures a.sentiment == Some(FallbackSentiment)
    ensures a.keyInsights == Some(FallbackInsights(|FallbackWords(content)|))
    ensures a.topics == Some(FallbackTopics)
    ensures a.keywords.Some? && a.keywords.value <= FallbackWords(content)
    ensures a.keywords.Some? && |a.keywords.value| == if |FallbackWords(content)| <= 5 then |FallbackWords(content)| else 5
  {
    var words := FallbackWords(content);
    var summary := Prefix(content, FallbackSummaryLength) + "...";
    assert summary[..|summary| - 3] == Prefix(content, FallbackSummaryLength);
    AiAnalysis(Some("Content Analysis"), Some(FallbackDescription(|words|)), Some(summary),
               Some(FallbackSentiment), Some(FallbackInsights(|words|)), Some(FallbackTopics),
               Some(Take(words, 5)))
  }

  /** The fallback description states the number of words counted, and the
      number can be read back from it. */
  lemma FallbackDescriptionCount(content: string)
    ensures var d := FallbackAnalysis(content).description.value;
            var prefix := "Analysis of "; var suffix := " words of content";
            |d| > |prefix| + |suffix| && d[..|prefix|] == prefix && d[|d| - |suffix|..] == suffix &&
            (forall i :: |prefix| <= i < |d| - |suffix| ==> IsDigit(d[i])) &&
            ParseDecimal(d[|prefix|..|d| - |suffix|]) == |FallbackWords(content)|
  {
    DescriptionDigits(|FallbackWords(content)|);
  }

  lemma DescriptionDigits(n: nat)
    ensures var d := FallbackDescription(n);
            var prefix := "Analysis of "; var suffix := " words of content";
            |d| > |prefix| + |suffix| && d[..|prefix|] == prefix && d[|d| - |suffix|..] == suffix &&
            (forall i :: |prefix| <= i < |d| - |suffix| ==> IsDigit(d[i])) &&
            ParseDecimal(d[|prefix|..|d| - |suffix|]) == n
  {
    var d := FallbackDescription(n);
    var digits := NatToString(n);
    assert d == "Analysis of " + digits + " words of content";
    assert d[|"Analysis of "|..|d| - |" words of content"|] == digits;
    ParseNatToString(n);
  }

  function FirstIndexOf(s: string, c: char): (r: Option<nat>)
    ensures r.None? <==> c !in s
    ensures r.Some? ==> r.value < |s| && s[r.value] == c && forall k :: 0 <= k < r.value ==> s[k] != c
  {
    if s == [] then None
    else if s[0] == c then Some(0)
    else match FirstIndexOf(s[1..], c)
      case None => None
      case Some(k) => Some(k + 1)
  }

  function LastIndexOf(s: string, c: char): (r: Option<nat>)
    ensures r.None? <==> c !in s
    ensures r.Some? ==> r.value < |s| && s[r.value] == c && forall k :: r.value < k < |s| ==> s[k] != c
  {
    if s == [] then None
    else if s[|s| - 1] == c then Some(|s| - 1)
    else
      assert forall k :: 0 <= k < |s| - 1 ==> s[..|s| - 1][k] == s[k];
      LastIndexOf(s[..|s| - 1], c)
  }

  /** `text.match(/\{[\s\S]*\}/)`: the greedy match from the first `{` to
      the last `}` after it; none when no `}` follows a `{`. */
  function JsonBlock(text: string): (r: Option<string>)
    ensures r.None? <==> forall i, j :: 0 <= i < j < |text| && text[i] == '{' ==> text[j] != '}'
    ensures r.Some? ==>
              (FirstIndexOf(text, '{').Some? && LastIndexOf(text, '}').Some? &&
               FirstIndexOf(text, '{').value < LastIndexOf(text, '}').value &&
               r.value == text[FirstIndexOf(text, '{').value..LastIndexOf(text, '}').value + 1])
    ensures r.Some? ==> |r.value| >= 2 && r.value[0] == '{' && r.value[|r.value| - 1] == '}'
  {
    match FirstIndexOf(text, '{')
    case None => None
    case Some(i) =>
      match LastIndexOf(text, '}')
      case None => None
      case Some(j) => if i < j then Some(text[i..j + 1]) else None
  }

  /** `!x` for a number field: missing or zero. */
  predicate Falsy(x: Option<real>) {
    x.None? || x.value == 0.0
  }

  function Abs(x: real): real {
    if x < 0.0 then -x else x
  }

  /** `sentiment.polarity || 0` */
  function PolarityOrZero(s: Sentiment): real {
    if Falsy(s.polarity) then 0.0 else s.polarity.value
  }

  /** The repair applied when any of the three shares is missing or zero: the
      shares are recomputed from the polarity, and add up to 1. */
  function Repaired(s: Sentiment): (r: Sentiment)
    ensures !Falsy(s.positive) && !Falsy(s.negative) && !Falsy(s.neutral) ==> r == s
    ensures r.polarity == s.polarity && r.subjectivity == s.subjectivity && r.labelText == s.labelText
    ensures Falsy(s.positive) || Falsy(s.negative) || Falsy(s.neutral) ==>
              r.positive.Some? && r.negative.Some? && r.neutral.Some? &&
              r.positive.value + r.negative.value + r.neutral.value == 1.0 &&
              (PolarityOrZero(s) > 0.0 ==> r.positive.value == 0.7 * PolarityOrZero(s) && r.negative.value == 0.1) &&
              (PolarityOrZero(s) < 0.0 ==> r.positive.value == 0.2 && r.negative.value == 0.7 * -PolarityOrZero(s)) &&
              (PolarityOrZero(s) == 0.0 ==> r.positive.value == 0.2 && r.negative.value == 0.1)
  {
    if Falsy(s.positive) || Falsy(s.negative) || Falsy(s.neutral) then
      var p := PolarityOrZero(s);
      var positive := if p > 0.0 then Abs(p) * 0.7 else 0.2;
      var negative := if p < 0.0 then Abs(p) * 0.7 else 0.1;
      s.(positive := Some(positive), negative := Some(negative), neutral := Some(1.0 - positive - negative))
    else s
  }

  /** The recomputed shares are all positive exactly when the polarity lies
      strictly between -8/7 and 9/7, which includes the range [-1, 1] the
      prompt asks for; outside it the neutral share goes to zero or below. */
  lemma RepairedSharesPositive(s: Sentiment)
    requires Falsy(s.positive) || Falsy(s.negative) || Falsy(s.neutral)
    ensures var r := Repaired(s);
            r.positive.value > 0.0 && r.negative.value > 0.0 && r.neutral.value > 0.0 <==>
            -8.0 / 7.0 < PolarityOrZero(s) < 9.0 / 7.0
  {
  }

  /** The reply that is used, when every step of the model call succeeds:
      a usable key, a reply, a JSON block in it, a parse, and a sentiment
      object (without one the repair raises and the fallback is used). */
  function ModelReply(url: string, content: string, apiKey: string,
                      generate: Prompt -> Option<string>, parseJson: string -> Option<AiAnalysis>): (r: Option<AiAnalysis>)
    ensures r.Some? <==>
              KeyUsable(apiKey) && generate(PromptFor(url, content)).Some? &&
              JsonBlock(generate(PromptFor(url, content)).value).Some? &&
              parseJson(JsonBlock(generate(PromptFor(url, content)).value).value).Some? &&
              parseJson(JsonBlock(generate(PromptFor(url, content)).value).value).value.sentiment.Some?
    ensures r.Some? ==> r == parseJson(JsonBlock(generate(PromptFor(url, content)).value).value)
  {
    if !KeyUsable(apiKey) then None
    else match generate(PromptFor(url, content))
      case None => None
      case Some(text) =>
        match JsonBlock(text)
        case None => None
        case Some(block) =>
          match parseJson(block)
          case None => None
          case Some(a) => if a.sentiment.Some? then Some(a) else None
  }

  /** `analyzeWithGemini`: the parsed reply with its sentiment repaired, or
      the fallback analysis when any step fails. The result always carries a
      sentiment object. */
  function AnalyzeWithGemini(url: string, content: string, apiKey: string,
                             generate: Prompt -> Option<string>, parseJson: string -> Option<AiAnalysis>): (a: AiAnalysis)
    ensures a.sentiment.Some?
    ensures !KeyUsable(apiKey) ==> a == FallbackAnalysis(content)
    ensures ModelReply(url, content, apiKey, generate, parseJson).None? ==> a == FallbackAnalysis(content)
    ensures ModelReply(url, content, apiKey, generate, parseJson).Some? ==>
              var m := ModelReply(url, content, apiKey, generate, parseJson).value;
              a.title == m.title && a.description == m.description && a.summary == m.summary &&
              a.keyInsights == m.keyInsights && a.topics == m.topics && a.keywords == m.keywords &&
              a.sentiment == Some(Repaired(m.sentiment.value))
  {
    match ModelReply(url, content, apiKey, generate, parseJson)
    case None => FallbackAnalysis(content)
    case Some(m) => m.(sentiment := Some(Repaired(m.sentiment.value)))
  }

  // ------------------------------------------------------------ page fetch

  /** The parts of the parsed page the service reads. */
  datatype Document = Document(
    bodyText: Option<string>,           // `textContent` of <body>; None without one
    titleText: Option<string>,          // `textContent` of <title>; None without one
    imageSources: seq<Option<string>>,  // the `src` attribute of each <img>, in document order
    metas: seq<Meta>)                   // the <meta> elements, in document order

  /** The `name`, `property` and `content` attributes of a <meta>. */
  datatype Meta = Meta(name: Option<string>, property: Option<string>, content: Option<string>)

  datatype PageMetadata = PageMetadata(
    title: Option<string>,
    description: Option<string>,
    author: Option<string>,
    keywords: seq<string>,
    publishDate: Option<string>)

  datatype WebPage = WebPage(content: string, images: seq<string>, metadata: PageMetadata)

  /** `textContent.replace(/\s+/g, ' ').trim()`: the whitespace-separated
      pieces of the text joined by single spaces, trimmed. */
  function CollapsedText(text: string): (r: string)
    ensures r == Trim(Join(SplitWs(text), " "))
    ensures SingleSpaced(r)
    ensures r == [] || (!IsSpace(r[0]) && !IsSpace(r[|r| - 1]))
  {
    JoinSplitWs(text);
    TrimSingleSpaced(Collapse(text));
    Trim(Collapse(text))
  }

  /** Collapsing and trimming a second time changes nothing. */
  lemma CollapsedTextIdempotent(text: string)
    ensures CollapsedText(CollapsedText(text)) == CollapsedText(text)
  {
    var x := CollapsedText(text);
    CollapseSingleSpaced(x);
    TrimTrimmed(x);
  }

  /** The selector `meta[name="X"], meta[property="X"], meta[property="og:X"]`. */
  predicate MetaMatches(m: Meta, name: string) {
    m.name == Some(name) || m.property == Some(name) || m.property == Some("og:" + name)
  }

  /** `querySelector` returns the element at `i`: the first that matches. */
  predicate FirstMatchAt(metas: seq<Meta>, name: string, i: int) {
    0 <= i < |metas| && MetaMatches(metas[i], name) && forall j :: 0 <= j < i ==> !MetaMatches(metas[j], name)
  }

  function FirstMeta(metas: seq<Meta>, name: string): (r: Option<nat>)
    ensures r.None? ==> forall i :: 0 <= i < |metas| ==> !MetaMatches(metas[i], name)
    ensures r.Some? ==> FirstMatchAt(metas, name, r.value)
  {
    if metas == [] then None
    else if MetaMatches(metas[0], name) then Some(0)
    else match FirstMeta(metas[1..], name)
      case None => None
      case Some(k) => Some(k + 1)
  }

  /** `getMetaContent(name)`: the content attribute of the first matching
      <meta>, unless there is none, or it is missing or empty. */
  function MetaContent(doc: Document, name: string): (r: Option<string>)
    ensures (forall i :: 0 <= i < |doc.metas| ==> !MetaMatches(doc.metas[i], name)) ==> r.None?
    ensures forall i :: FirstMatchAt(doc.metas, name, i) ==> r == TruthyOnly(doc.metas[i].content)
  {
    match FirstMeta(doc.metas, name)
    case None => None
    case Some(i) =>
      assert forall k :: FirstMatchAt(doc.metas, name, k) ==> k == i;
      TruthyOnly(doc.metas[i].content)
  }

  /** A page whose only <meta> carries `property="og:description"` has that
      description. */
  lemma MetaContentOgProperty(doc: Document)
    requires doc.metas == [Meta(None, Some("og:description"), Some("A page"))]
    ensures MetaContent(doc, "description") == Some("A page")
  {
    assert "og:" + "description" == "og:description";
    assert FirstMatchAt(doc.metas, "description", 0);
  }

  /** `raw?.split(',').map(k => k.trim()) || []` */
  function MetaKeywords(raw: Option<string>): (r: seq<string>)
    ensures raw.None? ==> r == []
    ensures raw.Some? ==> |r| == |SplitOn(raw.value, ',')| && |r| >= 1
    ensures raw.Some? ==> forall i :: 0 <= i < |r| ==> r[i] == Trim(SplitOn(raw.value, ',')[i])
    ensures forall i :: 0 <= i < |r| ==> ',' !in r[i] && (r[i] == [] || (!IsSpace(r[i][0]) && !IsSpace(r[i][|r[i]| - 1])))
  {
    match raw
    case None => []
    case Some(k) =>
      var pieces := SplitOn(k, ',');
      var r := TrimAll(pieces);
      assert forall i :: 0 <= i < |r| ==> CharsFrom(r[i], pieces[i]);
      r
  }

  /** The `map` callback of the image list: `null` for a missing or empty
      `src`, else `new URL(src, url).href`, `null` when that raises. */
  function ResolvedSource(src: Option<string>, base: string, resolve: (string, string) -> Option<string>): Option<string> {
    if Truthy(src) then resolve(src.value, base) else None
  }

  /** The image list: the `src` of each <img> resolved against the page URL,
      keeping, in document order, those that resolve and start with "http". */
  function ResolvedImages(sources: seq<Option<string>>, base: string,
                          resolve: (string, string) -> Option<string>): (r: seq<string>)
    ensures |r| <= |sources|
    ensures forall i :: 0 <= i < |r| ==> StartsWith(r[i], "http")
    ensures forall x :: x in r <==>
              StartsWith(x, "http") && exists i :: 0 <= i < |sources| && ResolvedSource(sources[i], base, resolve) == Some(x)
  {
    if sources == [] then []
    else
      var resolved := ResolvedSource(sources[0], base, resolve);
      var rest := ResolvedImages(sources[1..], base, resolve);
      assert forall i :: 0 <= i < |sources| - 1 ==> sources[1..][i] == sources[i + 1];
      (if resolved.Some? && StartsWith(resolved.value, "http") then [resolved.value] else []) + rest
  }

  /** The images of earlier <img> elements come first. */
  lemma {:induction false} ResolvedImagesAppend(a: seq<Option<string>>, b: seq<Option<string>>, base: string,
                                                resolve: (string, string) -> Option<string>)
    ensures ResolvedImages(a + b, base, resolve) == ResolvedImages(a, base, resolve) + ResolvedImages(b, base, resolve)
  {
    if a == [] {
      assert a + b == b;
    } else {
      assert (a + b)[0] == a[0] && (a + b)[1..] == a[1..] + b;
      ResolvedImagesAppend(a[1..], b, base, resolve);
    }
  }

  /** `fetchWebpage`: None when the request fails. */
  function FetchWebpage(url: string, fetched: Option<Document>,
                        resolve: (string, string) -> Option<string>): (r: Option<WebPage>)
    ensures r.None? <==> fetched.None?
    ensures r.Some? ==> fetched.value.bodyText.None? ==> r.value.content == ""
    ensures r.Some? ==> fetched.value.bodyText.Some? ==> r.value.content == CollapsedText(fetched.value.bodyText.value)
    ensures r.Some? ==> r.value.images == ResolvedImages(fetched.value.imageSources, url, resolve)
    ensures r.Some? ==> r.value.metadata.title == TruthyOnly(fetched.value.titleText)
    ensures r.Some? ==> r.value.metadata.description == MetaContent(fetched.value, "description")
    ensures r.Some? ==> r.value.metadata.author == MetaContent(fetched.value, "author")
    ensures r.Some? ==> r.value.metadata.keywords == MetaKeywords(MetaContent(fetched.value, "keywords"))
    ensures r.Some? ==>
              r.value.metadata.publishDate ==
              OrMaybe(MetaContent(fetched.value, "article:published_time"), MetaContent(fetched.value, "publish_date"))
  {
    match fetched
    case None => None
    case Some(doc) =>
      var content := if doc.bodyText.Some? then CollapsedText(doc.bodyText.value) else "";
      var metadata := PageMetadata(
        TruthyOnly(doc.titleText),
        MetaContent(doc, "description"),
        MetaContent(doc, "author"),
        MetaKeywords(MetaContent(doc, "keywords")),
        OrMaybe(MetaContent(doc, "article:published_time"), MetaContent(doc, "publish_date")));
      Some(WebPage(content, ResolvedImages(doc.imageSources, url, resolve), metadata))
  }

  /** A fetched page's content is already collapsed and trimmed, single-spaced,
      and every image is an http(s) address. */
  lemma FetchedPageShape(url: string, fetched: Option<Document>, resolve: (string, string) -> Option<string>)
    requires fetched.Some?
    ensures var page := FetchWebpage(url, fetched, resolve).value;
            CollapsedText(page.content) == page.content && SingleSpaced(page.content) &&
            forall i :: 0 <= i < |page.images| ==> StartsWith(page.images[i], "http")
  {
    var page := FetchWebpage(url, fetched, resolve).value;
    if fetched.value.bodyText.Some? {
      CollapsedTextIdempotent(fetched.value.bodyText.value);
    } else {
      assert Collapse("") == "";
      TrimTrimmed("");
    }
  }

  // ----------------------------------------------------------------- merge

  datatype UrlAnalysisResult = UrlAnalysisResult(
    title: string,
    description: string,
    content: string,
    author: Option<string>,
    keywords: seq<string>,
    publishDate: Option<string>,
    sentiment: Option<Sentiment>,
    wordFrequency: seq<(string, nat)>,
    images: seq<string>,
    keyInsights: seq<string>,
    topics: seq<string>,
    summary: string)

  const ContentLimit: nat := 5000
  const ImageLimit: nat := 20

  /** The result of `analyzeUrl`: the model's fields where truthy, else the
      page's, else the defaults; an array from the model is used even when
      empty. */
  function Merge(page: WebPage, ai: AiAnalysis, wordFrequency: seq<(string, nat)>): (r: UrlAnalysisResult)
    ensures r.title != ""
    ensures Truthy(ai.title) ==> r.title == ai.title.value
    ensures !Truthy(ai.title) && Truthy(page.metadata.title) ==> r.title == page.metadata.title.value
    ensures !Truthy(ai.title) && !Truthy(page.metadata.title) ==> r.title == "Untitled"
    ensures Truthy(ai.description) ==> r.description == ai.description.value
    ensures !Truthy(ai.description) ==> r.description == OrElse(page.metadata.description, "")
    ensures |page.content| <= ContentLimit ==> r.content == page.content
    ensures |page.content| > ContentLimit ==> r.content == page.content[..ContentLimit]
    ensures ai.keywords.Some? ==> r.keywords == ai.keywords.value
    ensures ai.keywords.None? ==> r.keywords == page.metadata.keywords
    ensures r.author == page.metadata.author && r.publishDate == page.metadata.publishDate
    ensures r.sentiment == ai.sentiment && r.wordFrequency == wordFrequency
    ensures |page.images| <= ImageLimit ==> r.images == page.images
    ensures |page.images| > ImageLimit ==> r.images == page.images[..ImageLimit]
    ensures r.keyInsights == (if ai.keyInsights.Some? then ai.keyInsights.value else [])
    ensures r.topics == (if ai.topics.Some? then ai.topics.value else [])
    ensures r.summary == OrElse(ai.summary, "")
  {
    UrlAnalysisResult(
      OrElse(ai.title, OrElse(page.metadata.title, "Untitled")),
      OrElse(ai.description, OrElse(page.metadata.description, "")),
      Prefix(page.content, ContentLimit),
      page.metadata.author,
      if ai.keywords.Some? then ai.keywords.value else page.metadata.keywords,
      page.metadata.publishDate,
      ai.sentiment,
      wordFrequency,
      Take(page.images, ImageLimit),
      if ai.keyInsights.Some? then ai.keyInsights.value else [],
      if ai.topics.Some? then ai.topics.value else [],
      OrElse(ai.summary, ""))
  }

  /** The service's collaborators: the configured key, the HTTP fetch and
      HTML parse of a URL (None when either fails), `new URL(src, base).href`
      (None when it raises), the model call (None when it raises) and
      `JSON.parse` (None when it raises). */
  datatype GeminiEnv = GeminiEnv(
    apiKey: string,
    fetch: string -> Option<Document>,
    resolve: (string, string) -> Option<string>,
    generate: Prompt -> Option<string>,
    parseJson: string -> Option<AiAnalysis>)

  /** What `analyzeUrl` returns: nothing when the page cannot be fetched;
      otherwise the page, the model analysis and the word frequencies merged. */
  function UrlAnalysis(url: string, env: GeminiEnv): (r: Option<UrlAnalysisResult>)
    ensures r.None? <==> env.fetch(url).None?
  {
    var page := FetchWebpage(url, env.fetch(url), env.resolve);
    if page.None? then None
    else
      var content := page.value.content;
      Some(Merge(page.value, AnalyzeWithGemini(url, content, env.apiKey, env.generate, env.parseJson),
                 EnumerationOrder(TopWords(content))))
  }

  /** A successful analysis has a title, bounded content, a sentiment, and at
      most twenty images, all of them absolute http(s) addresses. */
  lemma UrlAnalysisShape(url: string, env: GeminiEnv)
    requires UrlAnalysis(url, env).Some?
    ensures UrlAnalysis(url, env).value.title != ""
    ensures |UrlAnalysis(url, env).value.content| <= ContentLimit
    ensures UrlAnalysis(url, env).value.sentiment.Some?
    ensures |UrlAnalysis(url, env).value.images| <= ImageLimit
    ensures forall i :: 0 <= i < |UrlAnalysis(url, env).value.images| ==>
              StartsWith(UrlAnalysis(url, env).value.images[i], "http")
  {
    var page := FetchWebpage(url, env.fetch(url), env.resolve).value;
    var ai := AnalyzeWithGemini(url, page.content, env.apiKey, env.generate, env.parseJson);
    var result := Merge(page, ai, EnumerationOrder(TopWords(page.content)));
    assert UrlAnalysis(url, env) == Some(result);
    PrefixStartsWith(result.images, page.images, "http");
  }

  lemma PrefixStartsWith(r: seq<string>, s: seq<string>, p: string)
    requires r <= s
    requires forall i :: 0 <= i < |s| ==> StartsWith(s[i], p)
    ensures forall i :: 0 <= i < |r| ==> StartsWith(r[i], p)
  {
    forall i | 0 <= i < |r| ensures StartsWith(r[i], p) {
      assert r[i] == s[i];
    }
  }

  /** `analyzeUrl` */
  method AnalyzeUrl(url: string, env: GeminiEnv) returns (r: Option<UrlAnalysisResult>)
    ensures r == UrlAnalysis(url, env)
  {
    var page := FetchWebpage(url, env.fetch(url), env.resolve);
    if page.None? {
      return None;
    }
    var analysis := AnalyzeWithGemini(url, page.value.content, env.apiKey, env.generate, env.parseJson);
    var wordFrequency := CalculateWordFrequency(page.value.content);
    r := Some(Merge(page.value, analysis, wordFrequency));
  }
}
