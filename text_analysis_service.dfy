/**
 * The backend's text analysis: the built-in keyword scorer, and the choice
 * between the analysis microservice and that scorer. The HTTP call to the
 * microservice is a parameter.
 */
module TextAnalysisService {
  import opened Optional
  import opened Strings
  import opened Sorting
  import opened Counting
  import opened JsObject

  /** A JavaScript number that may be `NaN`. */
  datatype Share = Number(value: real) | NaN

  datatype BasicSentiment = BasicSentiment(
    score: real,
    labelText: string,
    positive: real,
    negative: real,
    neutral: Share)

  /** `wordFrequency` is the counter object as its entries in enumeration order. */
  datatype TextAnalysisResult = TextAnalysisResult(
    wordCount: nat,
    wordFrequency: seq<(string, nat)>,
    sentiment: BasicSentiment)

  /** The characters `replace(/[^\w\s]/g, '')` keeps. */
  predicate KeptChar(c: char) {
    IsWordChar(c) || IsSpace(c)
  }

  predicate LongerThan2(w: string) {
    |w| > 2
  }

  /** Lowercased, characters other than word characters and whitespace
      deleted, split on whitespace, tokens longer than 2 characters kept. */
  function Tokens(text: string): (r: seq<string>)
    ensures forall i :: 0 <= i < |r| ==> |r[i]| > 2 && NoSpace(r[i])
  {
    var pieces := SplitWs(Filter(Lower(text), KeptChar));
    FilterFrom(pieces, LongerThan2);
    Filter(pieces, LongerThan2)
  }

  /** Every token is a run of lowercase letters, digits and `_` longer than 2. */
  lemma TokensShape(text: string)
    ensures forall i :: 0 <= i < |Tokens(text)| ==>
              |Tokens(text)[i]| > 2 &&
              forall j :: 0 <= j < |Tokens(text)[i]| ==> IsWordChar(Tokens(text)[i][j]) && !IsUpperAlpha(Tokens(text)[i][j])
  {
    var lower := Lower(text);
    var cleaned := Filter(lower, KeptChar);
    var pieces := SplitWs(cleaned);
    FilterFrom(lower, KeptChar);
    FilterFrom(pieces, LongerThan2);
    forall i | 0 <= i < |Tokens(text)|
      ensures forall j :: 0 <= j < |Tokens(text)[i]| ==> IsWordChar(Tokens(text)[i][j]) && !IsUpperAlpha(Tokens(text)[i][j])
    {
      var w := Tokens(text)[i];
      assert w in pieces;
      var p :| 0 <= p < |pieces| && pieces[p] == w;
      forall j | 0 <= j < |w| ensures IsWordChar(w[j]) && !IsUpperAlpha(w[j]) {
        assert w[j] in cleaned && !IsSpace(w[j]);
        var k :| 0 <= k < |lower| && lower[k] == w[j];
      }
    }
  }

  const PositiveWords: seq<string> :=
    ["good", "great", "excellent", "amazing", "wonderful", "fantastic", "love", "best", "perfect", "happy"]

  const NegativeWords: seq<string> :=
    ["bad", "terrible", "awful", "horrible", "hate", "worst", "poor", "sad", "disappointing"]

  predicate IsPositive(w: string) {
    w in PositiveWords
  }

  predicate IsNegative(w: string) {
    w in NegativeWords
  }

  /** The number of tokens satisfying `p`. */
  function Matches(words: seq<string>, p: string -> bool): nat {
    |Filter(words, p)|
  }

  /** `positive + negative || 1` */
  function Denominator(positive: nat, negative: nat): (d: nat)
    ensures d >= 1
    ensures positive + negative > 0 ==> d == positive + negative
    ensures positive + negative == 0 ==> d == 1
  {
    if positive + negative == 0 then 1 else positive + negative
  }

  function Score(positive: nat, negative: nat): real {
    (positive as real - negative as real) / Denominator(positive, negative) as real
  }

  /** The label thresholds: above 0.3 positive, below -0.3 negative. */
  function Label(score: real): (l: string)
    ensures l == "Positive" <==> score > 0.3
    ensures l == "Negative" <==> score < -0.3
    ensures l == "Neutral" <==> -0.3 <= score <= 0.3
  {
    if score > 0.3 then "Positive" else if score < -0.3 then "Negative" else "Neutral"
  }

  function Max(a: real, b: real): real {
    if a >= b then a else b
  }

  /** The sentiment object for the given keyword matches; `neutral` is
      `Math.max(0, 1 - (positive + negative) / wordCount)`, which is `NaN`
      when `wordCount` is 0. */
  function SentimentOf(positive: nat, negative: nat, wordCount: nat): (r: BasicSentiment)
    ensures -1.0 <= r.score <= 1.0 && r.labelText == Label(r.score)
    ensures r.positive >= 0.0 && r.negative >= 0.0
    ensures r.neutral.NaN? <==> wordCount == 0
  {
    ScoreRange(positive, negative);
    var total := Denominator(positive, negative) as real;
    var score := Score(positive, negative);
    var neutral := if wordCount == 0 then NaN
                   else Number(Max(0.0, 1.0 - (positive + negative) as real / wordCount as real));
    BasicSentiment(score, Label(score), positive as real / total, negative as real / total, neutral)
  }

  /** What `basicTextAnalysis(text)` returns. */
  function BasicAnalysis(text: string): (r: TextAnalysisResult)
    ensures r.wordCount == |Tokens(text)|
    ensures multiset(r.wordFrequency) == multiset(Tally(Tokens(text)))
    ensures r.wordCount == 0 <==> r.sentiment.neutral.NaN?
  {
    var words := Tokens(text);
    TextAnalysisResult(
      |words|,
      EnumerationOrder(Tally(words)),
      SentimentOf(Matches(words, IsPositive), Matches(words, IsNegative), |words|))
  }

  /** The second `forEach` of `basicTextAnalysis`: a token may increment
      both counters, each through its own test. */
  method CountKeywords(words: seq<string>) returns (positive: nat, negative: nat)
    ensures positive == Matches(words, IsPositive)
    ensures negative == Matches(words, IsNegative)
  {
    positive, negative := 0, 0;
    var i := 0;
    ghost var seen: seq<string> := [];
    while i < |words|
      invariant 0 <= i <= |words| && seen == words[..i]
      invariant positive == Matches(seen, IsPositive)
      invariant negative == Matches(seen, IsNegative)
    {
      var w := words[i];
      MatchesSnoc(seen, w, IsPositive);
      MatchesSnoc(seen, w, IsNegative);
      if IsPositive(w) {
        positive := positive + 1;
      }
      if IsNegative(w) {
        negative := negative + 1;
      }
      seen := seen + [w];
      i := i + 1;
    }
    assert words[..i] == words;
  }

  lemma MatchesSnoc(words: seq<string>, w: string, p: string -> bool)
    ensures Matches(words + [w], p) == Matches(words, p) + if p(w) then 1 else 0
  {
    FilterAppend(words, [w], p);
    assert Filter([w], p) == if p(w) then [w] else [];
  }

  /** `basicTextAnalysis`: counts the tokens into a record, then counts the
      keyword matches. */
  method BasicTextAnalysis(text: string) returns (r: TextAnalysisResult)
    ensures r == BasicAnalysis(text)
  {
    var words := Tokens(text);
    var wordCount := |words|;
    var order, counts := CountOccurrences(words);
    var positive, negative := CountKeywords(words);
    var entries := seq(|order|, k requires 0 <= k < |order| => (order[k], counts[order[k]]));
    assert entries == Tally(words);
    r := TextAnalysisResult(wordCount, EnumerationOrder(entries), SentimentOf(positive, negative, wordCount));
  }

  /** No word is in both keyword lists. */
  lemma KeywordListsDisjoint(w: string)
    ensures !(IsPositive(w) && IsNegative(w))
  {
  }

  lemma {:induction false} DisjointMatches(words: seq<string>)
    ensures Matches(words, IsPositive) + Matches(words, IsNegative) <= |words|
  {
    if words != [] {
      DisjointMatches(words[1..]);
      KeywordListsDisjoint(words[0]);
    }
  }

  /** Each entry of the record counts the occurrences of its key, and the
      counts add up to the number of tokens. */
  lemma RecordCounts(words: seq<string>)
    ensures TotalCount(EnumerationOrder(Tally(words))) == |words|
    ensures forall i :: 0 <= i < |EnumerationOrder(Tally(words))| ==>
              EnumerationOrder(Tally(words))[i].1 == Count(words, EnumerationOrder(Tally(words))[i].0) &&
              EnumerationOrder(Tally(words))[i].1 >= 1
  {
    var tally := Tally(words);
    var f := EnumerationOrder(tally);
    TallyTotal(words);
    TotalCountPermutation(tally, f);
    forall i | 0 <= i < |f| ensures f[i].1 == Count(words, f[i].0) && f[i].1 >= 1 {
      var k := PermutedIndex(f, tally, i);
    }
  }

  /** The record's keys are distinct. */
  lemma RecordKeysDistinct(words: seq<string>)
    ensures AllDistinct(Keys(EnumerationOrder(Tally(words))))
  {
    var tally := Tally(words);
    var f := EnumerationOrder(tally);
    DistinctKeysDistinctEntries(tally);
    PermutationDistinct(tally, f);
    RecordCounts(words);
    forall i, j | 0 <= i < j < |f| ensures Keys(f)[i] != Keys(f)[j] {
      assert f[i] != f[j];
    }
  }

  /** Every token is a key of the record. */
  lemma RecordKeysComplete(words: seq<string>)
    ensures forall i :: 0 <= i < |words| ==> words[i] in Keys(EnumerationOrder(Tally(words)))
  {
    forall i | 0 <= i < |words| ensures words[i] in Keys(EnumerationOrder(Tally(words))) {
      RecordHasKey(words, words[i]);
    }
  }

  lemma RecordHasKey(words: seq<string>, w: string)
    requires w in words
    ensures w in Keys(EnumerationOrder(Tally(words)))
  {
    var tally := Tally(words);
    var f := EnumerationOrder(tally);
    DistinctMembers(words, w);
    var k :| 0 <= k < |Keys(tally)| && Keys(tally)[k] == w;
    var m := PermutedIndex(tally, f, k);
    assert Keys(f)[m] == w;
  }

  /** The frequency record of `basicTextAnalysis`: one entry per distinct
      token, counting its occurrences; the counts add up to `wordCount`. */
  lemma BasicAnalysisFrequency(text: string)
    ensures BasicAnalysis(text).wordCount == |Tokens(text)|
    ensures TotalCount(BasicAnalysis(text).wordFrequency) == BasicAnalysis(text).wordCount
    ensures AllDistinct(Keys(BasicAnalysis(text).wordFrequency))
    ensures forall i :: 0 <= i < |BasicAnalysis(text).wordFrequency| ==>
              BasicAnalysis(text).wordFrequency[i].1 == Count(Tokens(text), BasicAnalysis(text).wordFrequency[i].0)
    ensures forall i :: 0 <= i < |Tokens(text)| ==> Tokens(text)[i] in Keys(BasicAnalysis(text).wordFrequency)
  {
    RecordCounts(Tokens(text));
    RecordKeysDistinct(Tokens(text));
    RecordKeysComplete(Tokens(text));
  }

  /** Each token matches at most one list, so `positive + negative` never
      exceeds `wordCount`. */
  lemma MatchesBound(text: string)
    ensures Matches(Tokens(text), IsPositive) + Matches(Tokens(text), IsNegative) <= |Tokens(text)|
  {
    DisjointMatches(Tokens(text));
  }

  lemma ScaleBy(x: real, c: real, t: real)
    requires t > 0.0
    ensures x / t > c <==> x > c * t
    ensures x / t < c <==> x < c * t
  {
    assert x == (x / t) * t;
  }

  /** The score lies in [-1, 1]. */
  lemma ScoreRange(positive: nat, negative: nat)
    ensures -1.0 <= Score(positive, negative) <= 1.0
  {
    var t := Denominator(positive, negative) as real;
    var d := positive as real - negative as real;
    ScaleBy(d, 1.0, t);
    ScaleBy(d, -1.0, t);
  }

  /** The positive and negative shares add up to 1 when some keyword
      matched, and are both 0 (with score 0 and label "Neutral") otherwise. */
  lemma SharesSum(positive: nat, negative: nat, wordCount: nat)
    ensures var s := SentimentOf(positive, negative, wordCount);
            (positive + negative > 0 ==> s.positive + s.negative == 1.0) &&
            (positive + negative == 0 ==> s.positive == 0.0 && s.negative == 0.0 && s.score == 0.0 && s.labelText == "Neutral")
  {
    var s := SentimentOf(positive, negative, wordCount);
    var t := Denominator(positive, negative) as real;
    assert s.positive == positive as real / t && s.negative == negative as real / t;
    if positive + negative > 0 {
      AddQuotients(positive as real, negative as real, t);
    } else {
      assert s.score == Score(0, 0) == 0.0;
    }
  }

  lemma AddQuotients(a: real, b: real, t: real)
    requires t == a + b && t > 0.0
    ensures a / t + b / t == 1.0
  {
    assert a / t + b / t == (a + b) / t;
  }

  /** The label is "Positive" exactly when 10 (positive - negative) > 3 total
      and "Negative" exactly when 10 (positive - negative) < -3 total. */
  lemma LabelThresholds(positive: nat, negative: nat, wordCount: nat)
    ensures var s := SentimentOf(positive, negative, wordCount);
            (s.labelText == "Positive" <==> 10 * (positive - negative) > 3 * Denominator(positive, negative)) &&
            (s.labelText == "Negative" <==> 10 * (positive - negative) < -3 * Denominator(positive, negative))
  {
    var t := Denominator(positive, negative) as real;
    var d := positive as real - negative as real;
    ScaleBy(d, 0.3, t);
    ScaleBy(d, -0.3, t);
  }

  lemma NeutralOf(positive: nat, negative: nat, wordCount: nat)
    requires positive + negative <= wordCount
    ensures var n := SentimentOf(positive, negative, wordCount).neutral;
            (n.NaN? <==> wordCount == 0) &&
            (wordCount > 0 ==>
               (n.value == 1.0 - (positive + negative) as real / wordCount as real && 0.0 <= n.value <= 1.0))
  {
    if wordCount > 0 {
      ScaleBy((positive + negative) as real, 1.0, wordCount as real);
      ScaleBy((positive + negative) as real, 0.0, wordCount as real);
    }
  }

  /** `neutral` is `NaN` exactly when there is no token; otherwise it is
      the share of tokens matching neither list, in [0, 1], and the clamp at 0
      never applies. */
  lemma NeutralShare(text: string)
    ensures var r := BasicAnalysis(text);
            var matched := Matches(Tokens(text), IsPositive) + Matches(Tokens(text), IsNegative);
            (r.sentiment.neutral.NaN? <==> r.wordCount == 0) &&
            (r.wordCount > 0 ==>
               (r.sentiment.neutral.value == 1.0 - matched as real / r.wordCount as real &&
                0.0 <= r.sentiment.neutral.value <= 1.0))
  {
    MatchesBound(text);
    NeutralOf(Matches(Tokens(text), IsPositive), Matches(Tokens(text), IsNegative), |Tokens(text)|);
  }

  /** `analyzeText`: the microservice's reply when its URL is configured and
      the call to `<url>/analyze/text` succeeds, the built-in analysis otherwise. */
  method AnalyzeText(text: string, serviceUrl: Option<string>,
                     post: (string, string) -> Option<TextAnalysisResult>) returns (r: TextAnalysisResult)
    ensures Truthy(serviceUrl) && post(serviceUrl.value + "/analyze/text", text).Some? ==>
              r == post(serviceUrl.value + "/analyze/text", text).value
    ensures !Truthy(serviceUrl) || post(serviceUrl.value + "/analyze/text", text).None? ==>
              r == BasicAnalysis(text)
  {
    if Truthy(serviceUrl) {
      var reply := post(serviceUrl.value + "/analyze/text", text);
      if reply.Some? {
        return reply.value;
      }
    }
    r := BasicTextAnalysis(text);
  }
}
