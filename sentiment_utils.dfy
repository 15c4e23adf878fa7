/**
 * The frontend's sentiment helpers: a score is coloured and labelled by the
 * same three-way partition at 0.3 and -0.3.
 */
module SentimentUtils {
  import TextAnalysisService

  /** `getSentimentColor` */
  function SentimentColor(score: real): (c: string)
    ensures c == "text-green-500" <==> score > 0.3
    ensures c == "text-red-500" <==> score < -0.3
    ensures c == "text-yellow-500" <==> -0.3 <= score <= 0.3
  {
    if score > 0.3 then "text-green-500" else if score < -0.3 then "text-red-500" else "text-yellow-500"
  }

  /** `getSentimentLabel` */
  function SentimentLabel(score: real): (l: string)
    ensures l == "Positive" <==> score > 0.3
    ensures l == "Negative" <==> score < -0.3
    ensures l == "Neutral" <==> -0.3 <= score <= 0.3
  {
    if score > 0.3 then "Positive" else if score < -0.3 then "Negative" else "Neutral"
  }

  /** Colour and label agree on every score. */
  lemma ColorMatchesLabel(score: real)
    ensures SentimentLabel(score) == "Positive" <==> SentimentColor(score) == "text-green-500"
    ensures SentimentLabel(score) == "Negative" <==> SentimentColor(score) == "text-red-500"
    ensures SentimentLabel(score) == "Neutral" <==> SentimentColor(score) == "text-yellow-500"
  {
  }

  /** Both boundaries are neutral and yellow. */
  lemma Boundaries()
    ensures SentimentLabel(0.3) == "Neutral" && SentimentColor(0.3) == "text-yellow-500"
    ensures SentimentLabel(-0.3) == "Neutral" && SentimentColor(-0.3) == "text-yellow-500"
  {
  }

  /** The position of a label in the order Negative < Neutral < Positive. */
  function Rank(l: string): nat {
    if l == "Negative" then 0 else if l == "Neutral" then 1 else 2
  }

  /** A higher score never gets a lower label. */
  lemma LabelMonotone(a: real, b: real)
    requires a <= b
    ensures Rank(SentimentLabel(a)) <= Rank(SentimentLabel(b))
  {
  }

  /** The frontend labels a score as the backend's keyword scorer does. */
  lemma SameLabelAsBackend(score: real)
    ensures SentimentLabel(score) == TextAnalysisService.Label(score)
  {
  }
}
