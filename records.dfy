/**
 * The records the backend stores and passes around. A JSON number is a
 * `real`; a field that may be missing is an `Option`.
 */
module Records {
  import opened Optional

  /** A sentiment object. Whether produced by the model, by the fallback or
      by the keyword scorer, any of its fields may be missing. */
  datatype Sentiment = Sentiment(
    polarity: Option<real>,
    subjectivity: Option<real>,
    labelText: Option<string>,  // the JSON field `label`
    positive: Option<real>,
    negative: Option<real>,
    neutral: Option<real>)

  datatype Metadata = Metadata(
    favicon: Option<string>,
    author: Option<string>,
    keywords: Option<seq<string>>,
    publishDate: Option<string>)

  /** `wordFrequency` is the counter object as its ordered entries. */
  datatype TextAnalysis = TextAnalysis(
    wordCount: nat,
    wordFrequency: seq<(string, nat)>,
    sentiment: Sentiment,
    summary: Option<string>)

  datatype Trends = Trends(interest: seq<int>, timestamps: seq<string>)

  /** What `AnalysisModel.create` is given: an analysis without `id` and `createdAt`. */
  datatype AnalysisData = AnalysisData(
    url: string,
    title: string,
    description: string,
    images: seq<string>,
    metadata: Metadata,
    textAnalysis: Option<TextAnalysis>,
    trends: Option<Trends>,
    keyInsights: Option<seq<string>>,
    topics: Option<seq<string>>,
    userId: string)

  /** A stored analysis: the data plus the assigned `id` and the creation time
      in milliseconds. */
  datatype Analysis = Analysis(id: string, data: AnalysisData, createdAt: int)

  /** A stored user; `password` holds whatever the caller passed, the hash when
      the caller is `register`. */
  datatype User = User(id: string, name: string, email: string, password: string, createdAt: int)

  /** The user fields the HTTP responses expose: no password. */
  datatype PublicUser = PublicUser(id: string, name: string, email: string, createdAt: int)

  function Public(u: User): (p: PublicUser)
    ensures p.id == u.id && p.name == u.name && p.email == u.email && p.createdAt == u.createdAt
  {
    PublicUser(u.id, u.name, u.email, u.createdAt)
  }
}
