/**
 * The analysis handlers: `analyzeUrl` validates the request, runs the URL
 * analysis and stores the result; `getAnalysis` and `deleteAnalysis` check
 * that the requester owns the stored analysis. The URL parser, the clock and
 * the random trend value are parameters.
 */
module AnalyzeController {
  import opened Optional
  import opened Strings
  import opened Records
  import opened AnalysisStore
  import opened GeminiService
  import opened Http

  /** The owner of an analysis created by `analyzeUrl`: the authenticated
      user, else "demo-user". */
  function Owner(authUser: Option<string>): (r: string)
    ensures Truthy(authUser) ==> r == authUser.value
    ensures !Truthy(authUser) ==> r == "demo-user"
  {
    OrElse(authUser, "demo-user")
  }

  /** `Math.floor(random * 40) + 60` for `random` in [0, 1). */
  function Interest(random: real): (r: int)
    requires 0.0 <= random < 1.0
    ensures 60 <= r <= 99
  {
    (random * 40.0).Floor + 60
  }

  /** `content.split(/\s+/).length`: the number of whitespace-separated
      segments, at least 1 even for empty content. */
  function WordCount(content: string): (r: nat)
    ensures r >= 1
    ensures r == |SplitWs(content)|
  {
    |SplitWs(content)|
  }

  /** The record `analyzeUrl` stores for `url` and the URL analysis. */
  function AnalysisRecord(url: string, owner: string, result: UrlAnalysisResult, nowIso: string, random: real): (d: AnalysisData)
    requires 0.0 <= random < 1.0
    requires result.sentiment.Some?
    ensures d.url == url && d.userId == owner
    ensures d.title == result.title && d.description == result.description && d.images == result.images
    ensures d.metadata == Metadata(None, result.author, Some(result.keywords), result.publishDate)
    ensures d.textAnalysis == Some(TextAnalysis(WordCount(result.content), result.wordFrequency, result.sentiment.value, Some(result.summary)))
    ensures d.trends.Some? && d.trends.value.timestamps == [nowIso] &&
            |d.trends.value.interest| == 1 && 60 <= d.trends.value.interest[0] <= 99
    ensures d.keyInsights == Some(result.keyInsights) && d.topics == Some(result.topics)
  {
    AnalysisData(
      url,
      result.title,
      result.description,
      result.images,
      Metadata(None, result.author, Some(result.keywords), result.publishDate),
      Some(TextAnalysis(WordCount(result.content), result.wordFrequency, result.sentiment.value, Some(result.summary))),
      Some(Trends([Interest(random)], [nowIso])),
      Some(result.keyInsights),
      Some(result.topics),
      owner)
  }

  /** `analyzeUrl`. `url` is the request body's field, `authUser` the
      authenticated user's id if any, `urlParses` whether `new URL(url)`
      succeeds; `now` and `nowIso` are the clock, `random` is `Math.random()`. */
  method AnalyzeUrl(model: AnalysisModel, url: Option<string>, authUser: Option<string>, urlParses: string -> bool,
                    env: GeminiEnv, now: int, nowIso: string, random: real)
    returns (r: Reply<Analysis>)
    requires model.Valid()
    requires 0.0 <= random < 1.0
    modifies model
    ensures model.Valid()
    ensures !Truthy(url) ==> r == Failure(BadRequest, "URL is required") && unchanged(model)
    ensures Truthy(url) && !urlParses(url.value) ==> r == Failure(BadRequest, "Invalid URL format") && unchanged(model)
    ensures Truthy(url) && urlParses(url.value) && env.fetch(url.value).None? ==>
              r == Failure(ServerError, "Failed to analyze URL") && unchanged(model)
    ensures r.Success? ==> (
      Truthy(url) && urlParses(url.value) && env.fetch(url.value).Some? &&
      r.status == Created &&
      r.body.id == NatToString(old(model.idCounter)) && r.body.id !in old(model.issued) &&
      r.body.createdAt == now && r.body.data.userId == Owner(authUser) && r.body.data.url == url.value &&
      UrlAnalysis(url.value, env).Some? && UrlAnalysis(url.value, env).value.sentiment.Some? &&
      r.body.data == AnalysisRecord(url.value, Owner(authUser), UrlAnalysis(url.value, env).value, nowIso, random) &&
      model.analyses == old(model.analyses)[r.body.id := r.body] &&
      model.order == old(model.order) + [r.body.id] &&
      model.idCounter == old(model.idCounter) + 1)
    ensures Truthy(url) && urlParses(url.value) && env.fetch(url.value).Some? ==> r.Success?
  {
    var userId := Owner(authUser);
    if !Truthy(url) {
      return Failure(BadRequest, "URL is required");
    }
    if !urlParses(url.value) {
      return Failure(BadRequest, "Invalid URL format");
    }
    var result := GeminiService.AnalyzeUrl(url.value, env);
    if result.None? {
      return Failure(ServerError, "Failed to analyze URL");
    }
    UrlAnalysisShape(url.value, env);
    var data := AnalysisRecord(url.value, userId, result.value, nowIso, random);
    var analysis := model.Create(data, now);
    return Success(Created, analysis);
  }

  /** `getAnalysis`: the stored analysis, to its owner only. */
  method GetAnalysis(model: AnalysisModel, id: string, userId: string) returns (r: Reply<Analysis>)
    ensures id !in model.analyses ==> r == Failure(NotFound, "Analysis not found")
    ensures id in model.analyses && model.analyses[id].data.userId != userId ==> r == Failure(Forbidden, "Access denied")
    ensures id in model.analyses && model.analyses[id].data.userId == userId ==> r == Success(Ok, model.analyses[id])
  {
    var analysis := model.FindById(id);
    if analysis.None? {
      return Failure(NotFound, "Analysis not found");
    }
    if analysis.value.data.userId != userId {
      return Failure(Forbidden, "Access denied");
    }
    return Success(Ok, analysis.value);
  }

  /** `getUserAnalyses`: the requester's analyses, newest first. */
  method GetUserAnalyses(model: AnalysisModel, userId: string) returns (r: Reply<seq<Analysis>>)
    requires model.Valid()
    ensures r.Success? && r.status == Ok
    ensures forall a :: a in r.body <==> a.data.userId == userId && a.id in model.analyses && model.analyses[a.id] == a
    ensures forall i, j :: 0 <= i < j < |r.body| ==> r.body[i].createdAt >= r.body[j].createdAt
    ensures r.body == model.FindByUserId(userId)
  {
    model.FindByUserIdProperties(userId);
    return Success(Ok, model.FindByUserId(userId));
  }

  /** `deleteAnalysis`: removes the analysis only when it exists and the
      requester owns it. */
  method DeleteAnalysis(model: AnalysisModel, id: string, userId: string) returns (r: Reply<string>)
    requires model.Valid()
    modifies model
    ensures model.Valid()
    ensures id !in old(model.analyses) ==> r == Failure(NotFound, "Analysis not found") && unchanged(model)
    ensures id in old(model.analyses) && old(model.analyses)[id].data.userId != userId ==>
              r == Failure(Forbidden, "Access denied") && unchanged(model)
    ensures id in old(model.analyses) && old(model.analyses)[id].data.userId == userId ==> (
              r == Success(Ok, "Analysis deleted successfully") &&
              model.analyses == old(model.analyses) - {id} && model.order == Without(old(model.order), id) &&
              model.idCounter == old(model.idCounter) && model.issued == old(model.issued))
    ensures forall k :: k != id ==> model.FindById(k) == old(model.FindById(k))
  {
    var analysis := model.FindById(id);
    if analysis.None? {
      return Failure(NotFound, "Analysis not found");
    }
    if analysis.value.data.userId != userId {
      return Failure(Forbidden, "Access denied");
    }
    model.Delete(id);
    return Success(Ok, "Analysis deleted successfully");
  }
}
