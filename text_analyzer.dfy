/**
 * The text microservice's deterministic parts: the mapping of a polarity to
 * a label and to positive/negative/neutral shares, and the top-N word
 * frequency. TextBlob's polarity and subjectivity, NLTK's tokenizer and its
 * English stop-word list are parameters; `round(x, 3)` is not modelled.
 */
module TextAnalyzer {
  import opened Strings
  import opened Sorting
  import opened Counting
  import opened TextAnalysisService

  datatype SentimentReport = SentimentReport(
    score: real,
    labelText: string,  // the field `label`
    positive: real,
    negative: real,
    neutral: real,
    subjectivity: real)

  /** The label of a polarity, at the thresholds 0.1 and -0.1. */
  function PolarityLabel(polarity: real): (l: string)
    ensures l == "Positive" <==> polarity > 0.1
    ensures l == "Negative" <==> polarity < -0.1
    ensures l == "Neutral" <==> -0.1 <= polarity <= 0.1
  {
    if polarity > 0.1 then "Positive" else if polarity < -0.1 then "Negative" else "Neutral"
  }

  /** `analyze_text_sentiment`, given TextBlob's polarity and subjectivity. */
  function AnalyzeTextSentiment(polarity: real, subjectivity: real): (r: SentimentReport)
    ensures r.score == polarity && r.subjectivity == subjectivity && r.labelText == PolarityLabel(polarity)
    ensures polarity > 0.0 ==> r.positive == polarity && r.negative == 0.0 && r.neutral == 1.0 - polarity
    ensures polarity < 0.0 ==> r.positive == 0.0 && r.negative == -polarity && r.neutral == 1.0 + polarity
    ensures polarity == 0.0 ==> r.positive == 0.0 && r.negative == 0.0 && r.neutral == 1.0
  {
    var (positive, negative, neutral) :=
      if polarity > 0.0 then (polarity, 0.0, 1.0 - polarity)
      else if polarity < 0.0 then (0.0, -polarity, 1.0 + polarity)
      else (0.0, 0.0, 1.0);
    SentimentReport(polarity, PolarityLabel(polarity), positive, negative, neutral, subjectivity)
  }

  /** The shares sum to 1, at most one of positive and negative is non-zero,
      and for a polarity in [-1, 1] each lies in [0, 1]. */
  lemma SharesProperties(polarity: real, subjectivity: real)
    ensures var r := AnalyzeTextSentiment(polarity, subjectivity);
            r.positive + r.negative + r.neutral == 1.0 && (r.positive == 0.0 || r.negative == 0.0)
    ensures -1.0 <= polarity <= 1.0 ==>
              var r := AnalyzeTextSentiment(polarity, subjectivity);
              0.0 <= r.positive <= 1.0 && 0.0 <= r.negative <= 1.0 && 0.0 <= r.neutral <= 1.0
  {
  }

  /** A weakly positive polarity gets a positive share but a neutral label. */
  lemma WeakPolarityIsNeutral(polarity: real, subjectivity: real)
    requires 0.0 < polarity <= 0.1
    ensures AnalyzeTextSentiment(polarity, subjectivity).positive > 0.0
    ensures AnalyzeTextSentiment(polarity, subjectivity).labelText == "Neutral"
  {
  }

  /** Python's `\s` in a str pattern, on ASCII: besides the JavaScript
      whitespace it matches the separators 0x1C-0x1F. */
  predicate IsPySpace(c: char) {
    IsSpace(c) || (28 <= c as int <= 31)
  }

  /** The characters `re.sub(r'[^\w\s]', '', ...)` keeps. */
  predicate PyKeptChar(c: char) {
    IsWordChar(c) || IsPySpace(c)
  }

  /** Lowercased, with every character other than word characters and
      whitespace removed (`re.sub(r'[^\w\s]', '', text.lower())`): a
      character survives exactly when it is kept by the pattern, and no upper
      case letter is left. */
  function Cleaned(text: string): (r: string)
    ensures |r| <= |text|
    ensures forall i :: 0 <= i < |r| ==> PyKeptChar(r[i]) && !IsUpperAlpha(r[i])
    ensures forall c :: c in r <==> c in Lower(text) && PyKeptChar(c)
  {
    forall c ensures c in Filter(Lower(text), PyKeptChar) <==> c in Lower(text) && PyKeptChar(c) {
      FilterMembers(Lower(text), PyKeptChar, c);
    }
    FilterFrom(Lower(text), PyKeptChar);
    Filter(Lower(text), PyKeptChar)
  }

  /** The file separator survives the cleaning and so still separates
      tokens: "ab\x1ccd" is unchanged. */
  lemma CleanedKeepsSeparator()
    ensures Cleaned("ab\U{1C}cd") == "ab\U{1C}cd"
  {
    var s := "ab\U{1C}cd";
    assert Lower(s) == s;
    assert IsPySpace(s[2]);
    AllFiltered(s, PyKeptChar);
  }

  /** The tokens that are kept: not stop words, longer than 2. */
  function KeptWords(tokens: seq<string>, stopWords: set<string>): (r: seq<string>)
    ensures forall i :: 0 <= i < |r| ==> r[i] !in stopWords && |r[i]| > 2 && r[i] in tokens
  {
    var kept := (w: string) => w !in stopWords && |w| > 2;
    FilterFrom(tokens, kept);
    Filter(tokens, kept)
  }

  /** `analyze_word_frequency(text, top_n)`: `Counter(words).most_common(top_n)`. */
  function AnalyzeWordFrequency(text: string, topN: nat, tokenize: string -> seq<string>, stopWords: set<string>):
    (r: seq<(string, nat)>)
    ensures |r| <= topN
    ensures forall i :: 0 <= i < |r| ==>
              r[i].0 !in stopWords && |r[i].0| > 2 && r[i].1 >= 1 &&
              r[i].1 == Count(KeptWords(tokenize(Cleaned(text)), stopWords), r[i].0)
  {
    var words := KeptWords(tokenize(Cleaned(text)), stopWords);
    MostCommonCounts(words, topN);
    MostCommon(words, topN)
  }

  /** At most `top_n` entries, no stop word and no word of length 2 or less,
      each with its number of occurrences among the kept words, by
      non-increasing count; equal counts keep first-seen order. */
  lemma WordFrequencyProperties(text: string, topN: nat, tokenize: string -> seq<string>, stopWords: set<string>)
    ensures var r := AnalyzeWordFrequency(text, topN, tokenize, stopWords);
            |r| <= topN && AllDistinct(Keys(r)) &&
            forall i :: 0 <= i < |r| ==>
              r[i].0 !in stopWords && |r[i].0| > 2 && r[i].0 in tokenize(Cleaned(text)) &&
              r[i].1 == Count(KeptWords(tokenize(Cleaned(text)), stopWords), r[i].0) && r[i].1 >= 1
    ensures var r := AnalyzeWordFrequency(text, topN, tokenize, stopWords);
            forall i, j :: 0 <= i < j < |r| ==> r[i].1 >= r[j].1
    ensures forall c: nat ::
              Filter(AnalyzeWordFrequency(text, topN, tokenize, stopWords), HasCount(c)) <=
              Filter(Tally(KeptWords(tokenize(Cleaned(text)), stopWords)), HasCount(c))
  {
    var words := KeptWords(tokenize(Cleaned(text)), stopWords);
    MostCommonCounts(words, topN);
    MostCommonDistinct(words, topN);
    RankedProperties(Tally(words), topN);
  }

  /** `extract_keywords(text, n)`: the words of the top-`n` frequency, in its
      order. */
  function ExtractKeywords(text: string, n: nat, tokenize: string -> seq<string>, stopWords: set<string>):
    (r: seq<string>)
    ensures |r| <= n
    ensures |r| == |AnalyzeWordFrequency(text, n, tokenize, stopWords)|
    ensures forall i :: 0 <= i < |r| ==> r[i] == AnalyzeWordFrequency(text, n, tokenize, stopWords)[i].0
  {
    Keys(AnalyzeWordFrequency(text, n, tokenize, stopWords))
  }
}
