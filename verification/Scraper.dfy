/** `WebsiteScraper.scrape_single_url` and `scrape_multiple_urls` (scraper.py lines 22-94 and
    173-182): the rating service is tried by a form POST, then by a GET with the target in the
    query string, and when neither yields a report one is synthesised from a reachability probe
    of the target itself. The network is a parameter: a function from the request made to the
    answer received, which is either a reply or a raised exception. */
module Scraper {
  import opened Wrappers
  import opened Text
  import opened Tokens
  import opened Urls
  import opened Report
  import opened Scores

  const RateMySiteUrl: string := "https://www.ratemysite.xyz/"

  /** The requests the scraper makes: through its session (which carries the browser
      User-Agent) or, for the reachability probe, directly. */
  datatype Request =
    | SessionGet(url: string)
    | SessionPost(url: string, form: seq<(string, string)>)
    | DirectGet(url: string)

  /** What a request gives back: a reply with its status code and decoded text, or the
      message of the exception it raised (a timeout, a refused connection, ...). */
  datatype Response = Raised(message: string) | Reply(status: int, body: string)

  /** The network as the scraper sees it during one target's processing. */
  type Network = Request -> Response

  datatype Status = Success | Error

  /** The record `scrape_single_url` returns: `{url, status, content, error}`. */
  datatype ScrapeResult = ScrapeResult(url: string, status: Status, content: string, error: Option<string>)

  /** A successful result carries no error; a failed one carries an error and no content. */
  predicate WellFormed(r: ScrapeResult) {
    (r.status == Success <==> r.error.None?) && (r.status == Error ==> r.content == "")
  }

  /** The words that make a POST reply count as an analysis. */
  const PostKeywords: seq<string> := ["score", "analysis", "rating", "report"]

  /** The words that make a GET reply count as an analysis ("report" is not among them). */
  const GetKeywords: seq<string> := ["score", "analysis", "rating"]

  const HomepageRequest: Request := SessionGet(RateMySiteUrl)

  /** The form submission `{'url': target}` to the service's own address. */
  function PostRequest(target: string): Request {
    SessionPost(RateMySiteUrl, [("url", target)])
  }

  /** The service's address with `?url=` and the target appended, unescaped. */
  function QueryRequest(target: string): Request {
    SessionGet(RateMySiteUrl + "?url=" + target)
  }

  /** The reachability probe: a plain GET of the target. */
  function ProbeRequest(target: string): Request {
    DirectGet(target)
  }

  /** Some keyword occurs in the lower-cased body. */
  predicate MentionsAny(body: string, keywords: seq<string>) {
    exists k :: 0 <= k < |keywords| && Contains(Lower(body), keywords[k])
  }

  // ---------------------------------------------------------------------------
  // The three ways to obtain a report
  // ---------------------------------------------------------------------------

  /** `_create_analysis_from_response`: the report filled with the scores found in a body. */
  function AnalysisFromResponse(target: string, body: string): (r: Result<string>)
    ensures r.Ok? <==> Netloc(target).Ok? && (|ScoreWords(body)| == 0 || |ScoreWords(body)| >= ReportSlots)
    ensures r.Ok? ==> StartsWith(r.value, HeaderPrefix + target)
  {
    FormatAnalysis(target, ScoresFromBody(body))
  }

  /** A report made from a body is the template filled with the URL's company name and the
      scores found in the body. */
  lemma AnalysisUsesBodyScores(target: string, body: string)
    requires Netloc(target).Ok? && |ScoresFromBody(body)| == ReportSlots
    ensures AnalysisFromResponse(target, body).Ok?
    ensures AnalysisFromResponse(target, body).value
      == Render(target, CompanyName(Netloc(target).value), ScoresFromBody(body), Sentences)
  {
  }

  /** When the netloc parses and eight scores are taken from the body (it has no score or at
      least eight), a report is made from the body, and its line `i` shows the `i`-th score
      found in the body, or the `i`-th default score when the body has none. */
  lemma ReportShowsBodyScores(target: string, body: string)
    requires Netloc(target).Ok? && |ScoresFromBody(body)| == ReportSlots
    ensures AnalysisFromResponse(target, body).Ok?
    ensures forall i :: 0 <= i < ReportSlots ==>
      OccursAt(AnalysisFromResponse(target, body).value, ReportLineStart(target, ScoresFromBody(body), i),
        ScoreLine(i, if ScoreWords(body) == [] then DefaultScores[i] else ScoreWords(body)[i]))
  {
    var scores := ScoresFromBody(body);
    FormattedScoreLines(target, scores);
    forall i | 0 <= i < ReportSlots
      ensures scores[i] == if ScoreWords(body) == [] then DefaultScores[i] else ScoreWords(body)[i]
    {
    }
  }

  /** One service attempt: a report when the request got a reply, the reply mentions a
      keyword and a report could be made from it. A raised request and a failed report are
      both swallowed by the attempt's own `except`, so they mean "no report" here. */
  function TryResponse(target: string, resp: Response, keywords: seq<string>): (r: Option<string>)
    ensures r.Some? <==> (resp.Reply? && MentionsAny(resp.body, keywords) && Netloc(target).Ok?
      && (|ScoreWords(resp.body)| == 0 || |ScoreWords(resp.body)| >= ReportSlots))
    ensures r.Some? ==> StartsWith(r.value, HeaderPrefix + target)
  {
    match resp
    case Raised(_) => None
    case Reply(_, body) =>
      if MentionsAny(body, keywords) then AnalysisFromResponse(target, body).ToOption() else None
  }

  /** The status code the probe observed, or `None` when the probe raised. */
  function ProbeStatus(probe: Response): (s: Option<int>)
    ensures s.Some? <==> probe.Reply?
  {
    match probe
    case Raised(_) => None
    case Reply(status, _) => Some(status)
  }

  /** `_generate_realistic_analysis`: the report filled with the synthesised scores. Its only
      failure is the URL parse of the formatter; the probe's own failure is absorbed. */
  function RealisticAnalysis(target: string, probe: Response): (r: Result<string>)
    ensures r.Ok? <==> Netloc(target).Ok?
    ensures r.Err? ==> r.error == InvalidIPv6Message
    ensures r.Ok? ==>
      r.value == Render(target, CompanyName(Netloc(target).value), GeneratedScores(ProbeStatus(probe), target), Sentences)
    ensures r.Ok? ==> StartsWith(r.value, HeaderPrefix + target)
  {
    FormatAnalysis(target, GeneratedScores(ProbeStatus(probe), target))
  }

  // ---------------------------------------------------------------------------
  // One target
  // ---------------------------------------------------------------------------

  function Succeeded(target: string, content: string): ScrapeResult {
    ScrapeResult(target, Success, content, None)
  }

  function Failed(target: string, message: string): ScrapeResult {
    ScrapeResult(target, Error, "", Some(message))
  }

  /** What is left once the POST attempt gave nothing: the GET attempt, then synthesis. */
  function AfterPost(target: string, net: Network): (r: ScrapeResult)
    ensures r.url == target && WellFormed(r)
    ensures r.status == Error <==> Netloc(target).Err?
    ensures r.status == Error ==> r.error == Some(InvalidIPv6Message)
    ensures r.status == Success ==> StartsWith(r.content, HeaderPrefix + target)
  {
    var query := TryResponse(target, net(QueryRequest(target)), GetKeywords);
    if query.Some? then Succeeded(target, query.value)
    else
      var synthesised := RealisticAnalysis(target, net(ProbeRequest(target)));
      if synthesised.Ok? then Succeeded(target, synthesised.value) else Failed(target, synthesised.error)
  }

  /** `scrape_single_url(target)`: load the service's homepage (a failure here ends the
      attempt with an error), then POST, then GET, then synthesis. */
  function ScrapeSingle(target: string, net: Network): (r: ScrapeResult)
    ensures r.url == target && WellFormed(r)
    ensures r.status == Error <==> net(HomepageRequest).Raised? || Netloc(target).Err?
    ensures net(HomepageRequest).Raised? ==> r.error == Some(net(HomepageRequest).message)
    ensures net(HomepageRequest).Reply? && Netloc(target).Err? ==> r.error == Some(InvalidIPv6Message)
    ensures r.status == Success ==> StartsWith(r.content, HeaderPrefix + target) && r.content != []
  {
    assert |HeaderPrefix + target| > 0;
    var homepage := net(HomepageRequest);
    if homepage.Raised? then Failed(target, homepage.message)
    else
      var post := TryResponse(target, net(PostRequest(target)), PostKeywords);
      if post.Some? then Succeeded(target, post.value) else AfterPost(target, net)
  }

  /** A POST reply that mentions a keyword and yields a report is used as it is. */
  lemma PostAnswerIsUsed(target: string, net: Network)
    requires net(HomepageRequest).Reply? && Netloc(target).Ok?
    requires net(PostRequest(target)).Reply?
    requires var body := net(PostRequest(target)).body;
      MentionsAny(body, PostKeywords) && (|ScoreWords(body)| == 0 || |ScoreWords(body)| >= ReportSlots)
    ensures ScrapeSingle(target, net) == Succeeded(target,
      Render(target, CompanyName(Netloc(target).value), ScoresFromBody(net(PostRequest(target)).body), Sentences))
  {
    var body := net(PostRequest(target)).body;
    var report := Render(target, CompanyName(Netloc(target).value), ScoresFromBody(body), Sentences);
    AnalysisUsesBodyScores(target, body);
    assert TryResponse(target, net(PostRequest(target)), PostKeywords) == Some(report);
  }

  /** A reply naming between one and seven scores yields no report: the formatter's index
      error is swallowed and the scraper moves on to the next attempt. */
  lemma ShortScoreListFallsThrough(target: string, net: Network)
    requires net(HomepageRequest).Reply?
    requires net(PostRequest(target)).Reply?
    requires 0 < |ScoreWords(net(PostRequest(target)).body)| < ReportSlots
    ensures ScrapeSingle(target, net) == AfterPost(target, net)
    ensures Netloc(target).Ok? ==>
      FormatAnalysis(target, ScoresFromBody(net(PostRequest(target)).body)) == Err(IndexErrorMessage)
  {
  }

  /** When the POST attempt gives nothing, a GET reply that mentions one of its keywords
      and yields a report is used. */
  lemma QueryAnswerIsUsed(target: string, net: Network)
    requires net(HomepageRequest).Reply? && Netloc(target).Ok?
    requires TryResponse(target, net(PostRequest(target)), PostKeywords).None?
    requires net(QueryRequest(target)).Reply?
    requires var body := net(QueryRequest(target)).body;
      MentionsAny(body, GetKeywords) && (|ScoreWords(body)| == 0 || |ScoreWords(body)| >= ReportSlots)
    ensures ScrapeSingle(target, net) == Succeeded(target,
      Render(target, CompanyName(Netloc(target).value), ScoresFromBody(net(QueryRequest(target)).body), Sentences))
  {
    var body := net(QueryRequest(target)).body;
    var report := Render(target, CompanyName(Netloc(target).value), ScoresFromBody(body), Sentences);
    AnalysisUsesBodyScores(target, body);
    assert TryResponse(target, net(QueryRequest(target)), GetKeywords) == Some(report);
    assert AfterPost(target, net) == Succeeded(target, report);
  }

  /** When both service attempts give nothing, the report is synthesised from the probe. */
  lemma SilentServiceSynthesises(target: string, net: Network)
    requires net(HomepageRequest).Reply? && Netloc(target).Ok?
    requires TryResponse(target, net(PostRequest(target)), PostKeywords).None?
    requires TryResponse(target, net(QueryRequest(target)), GetKeywords).None?
    ensures ScrapeSingle(target, net) == Succeeded(target,
      Render(target, CompanyName(Netloc(target).value),
        GeneratedScores(ProbeStatus(net(ProbeRequest(target))), target), Sentences))
  {
  }

  /** Every keyword the GET attempt accepts, the POST attempt accepts too; a body that only
      says "report" is accepted by the POST attempt and rejected by the GET attempt. */
  lemma ReportKeywordOnlyForPost(body: string)
    ensures MentionsAny(body, GetKeywords) ==> MentionsAny(body, PostKeywords)
    ensures Contains(Lower(body), "report") ==> MentionsAny(body, PostKeywords)
    ensures body == "report" ==> MentionsAny(body, PostKeywords) && !MentionsAny(body, GetKeywords)
  {
    if MentionsAny(body, GetKeywords) {
      var k :| 0 <= k < |GetKeywords| && Contains(Lower(body), GetKeywords[k]);
      assert PostKeywords[k] == GetKeywords[k];
    }
    if Contains(Lower(body), "report") {
      assert PostKeywords[3] == "report";
    }
    if body == "report" {
      ReportMentionsNoGetKeyword(body);
      ContainsIff(Lower(body), "report");
      assert OccursAt(Lower(body), 0, "report");
    }
  }

  lemma ReportMentionsNoGetKeyword(body: string)
    requires body == "report"
    ensures Lower(body) == "report"
    ensures !MentionsAny(body, GetKeywords)
  {
    assert forall i :: 0 <= i < |body| ==> IsLower(body[i]);
    LowerOfLowerCase(body);
    var low := Lower(body);
    NoOccurrenceWithoutFirstChar(low, "score");
    NoOccurrenceWithoutFirstChar(low, "analysis");
    ContainsIff(low, "rating");
    assert forall i :: !OccursAt(low, i, "rating");
  }

  // ---------------------------------------------------------------------------
  // A batch of targets
  // ---------------------------------------------------------------------------

  /** A target the batch processes: one that is not all whitespace, which is when
      `url.strip()` is not empty (`StripEmptyIff`). */
  predicate NonBlank(url: string) {
    !AllSpace(url)
  }

  /** The positions of the non-blank entries of `urls`, in increasing order. */
  function NonBlankPositions(urls: seq<string>): (ps: seq<nat>)
    ensures forall k :: 0 <= k < |ps| ==> ps[k] < |urls| && NonBlank(urls[ps[k]])
    ensures forall k, l :: 0 <= k < l < |ps| ==> ps[k] < ps[l]
    decreases |urls|
  {
    if |urls| == 0 then []
    else
      var i := |urls| - 1;
      var front := NonBlankPositions(urls[..i]);
      var ps := if NonBlank(urls[i]) then front + [i] else front;
      assert forall k :: 0 <= k < |front| ==>
        ps[k] == front[k] && front[k] < i && urls[..i][front[k]] == urls[front[k]];
      ps
  }

  /** No non-blank entry is missed. */
  lemma {:induction false} NonBlankPositionsComplete(urls: seq<string>, p: nat)
    requires p < |urls| && NonBlank(urls[p])
    ensures p in NonBlankPositions(urls)
    decreases |urls|
  {
    var i := |urls| - 1;
    if p < i {
      assert urls[..i][p] == urls[p];
      NonBlankPositionsComplete(urls[..i], p);
    }
  }

  /** Entry `i` of `urls`, when non-blank, stripped and handed to `step` with its position;
      blank entries produce nothing. */
  function MapNonBlank<R>(urls: seq<string>, step: (string, nat) -> R): (rs: seq<R>)
    ensures |rs| <= |urls|
    decreases |urls|
  {
    if |urls| == 0 then []
    else
      var i := |urls| - 1;
      MapNonBlank(urls[..i], step) + (if NonBlank(urls[i]) then [step(Strip(urls[i]), i)] else [])
  }

  /** One result per non-blank entry, in input order. */
  lemma {:induction false} MapNonBlankFollowsPositions<R>(urls: seq<string>, step: (string, nat) -> R)
    ensures |MapNonBlank(urls, step)| == |NonBlankPositions(urls)|
    ensures forall k :: 0 <= k < |NonBlankPositions(urls)| ==>
      MapNonBlank(urls, step)[k] == step(Strip(urls[NonBlankPositions(urls)[k]]), NonBlankPositions(urls)[k])
    decreases |urls|
  {
    if |urls| > 0 {
      var i := |urls| - 1;
      var front := urls[..i];
      MapNonBlankFollowsPositions(front, step);
      assert forall p :: 0 <= p < i ==> front[p] == urls[p];
    }
  }

  /** `scrape_single_url` as the batch calls it: the network answers as it does at step `i`. */
  function BatchStep(net: nat -> Network): (string, nat) -> ScrapeResult {
    (target: string, i: nat) => ScrapeSingle(target, net(i))
  }

  /** The batch as a list: entry `i` of `urls`, stripped, is scraped with the network as it
      answers at step `i`, and blank entries produce nothing. */
  function Batch(urls: seq<string>, net: nat -> Network): seq<ScrapeResult> {
    MapNonBlank(urls, BatchStep(net))
  }

  /** `scrape_multiple_urls(urls)`: every non-blank entry is stripped and scraped in turn. */
  method ScrapeMultiple(urls: seq<string>, net: nat -> Network) returns (results: seq<ScrapeResult>)
    ensures |results| == |NonBlankPositions(urls)|
    ensures forall k :: 0 <= k < |results| ==>
      results[k] == ScrapeSingle(Strip(urls[NonBlankPositions(urls)[k]]), net(NonBlankPositions(urls)[k]))
    ensures forall k :: 0 <= k < |results| ==>
      WellFormed(results[k]) && results[k].url != [] && Strip(results[k].url) == results[k].url
  {
    results := [];
    var i := 0;
    while i < |urls|
      invariant 0 <= i <= |urls|
      invariant results == Batch(urls[..i], net)
    {
      var url := urls[i];
      assert urls[..i + 1][..i] == urls[..i];
      StripEmptyIff(url);
      if Strip(url) != [] {
        var result := ScrapeSingle(Strip(url), net(i));
        assert result == BatchStep(net)(Strip(url), i);
        results := results + [result];
      }
      i := i + 1;
    }
    assert urls[..|urls|] == urls;
    MapNonBlankFollowsPositions(urls, BatchStep(net));
    forall k | 0 <= k < |results|
      ensures WellFormed(results[k]) && results[k].url != [] && Strip(results[k].url) == results[k].url
    {
      var url := urls[NonBlankPositions(urls)[k]];
      StripEmptyIff(url);
      StripIdempotent(url);
    }
  }

  /** Blank entries are skipped and the rest keep their order and their step's network. */
  lemma BatchSkipsBlanks<R>(urls: seq<string>, step: (string, nat) -> R)
    requires urls == ["a.test", "", " \t", "b.test"]
    ensures MapNonBlank(urls, step) == [step("a.test", 0), step("b.test", 3)]
  {
    StripOfHost("a.test");
    StripOfHost("b.test");
    assert !NonBlank("") && !NonBlank(" \t");
    assert NonBlank("a.test") && NonBlank("b.test");
    var first := [step("a.test", 0)];
    assert urls[..1] == ["a.test"] && urls[..1][..0] == [];
    assert MapNonBlank(urls[..1], step) == first;
    assert urls[..2][..1] == urls[..1] && urls[..2][1] == "";
    assert MapNonBlank(urls[..2], step) == first;
    assert urls[..3][..2] == urls[..2] && urls[..3][2] == " \t";
    assert MapNonBlank(urls[..3], step) == first;
  }

  lemma StripOfHost(s: string)
    requires s == "a.test" || s == "b.test"
    ensures Strip(s) == s
  {
    StripUnpadded(s);
  }
}
