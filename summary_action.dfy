/**
 * summarizeAction: read the settings, check them, pick the article or video prompt,
 * run the fallback ladder and wrap its outcome in the JSON envelope sent to the browser.
 * The entry lookup, the DOM text extraction, the video page fetch and the network are
 * inputs.
 */
module SummaryAction {
  import opened Wrappers
  import opened Json
  import opened PhpStrings
  import opened YouTube
  import opened RequestBuilder
  import opened ResponseParser
  import opened Negotiator

  /** The stored settings as read; a missing or null setting is None. */
  datatype UserConfig = UserConfig(
    apiKey: Option<string>,
    model: Option<string>,
    generalPrompt: Option<string>,
    youtubePrompt: Option<string>,
    maxTokens: Option<int>,
    temperature: Option<real>)

  /** The settings after `??` has supplied the defaults. */
  datatype Settings = Settings(
    apiKey: string,
    model: string,
    generalPrompt: string,
    youtubePrompt: string,
    maxTokens: int,
    temperature: real)

  const DefaultModel := "gemini-2.5-flash"
  const DefaultGeneralPrompt := "Please provide a concise summary of the following article content:"
  const DefaultYoutubePrompt := "Please provide a concise summary of this YouTube video:"

  function Resolve(conf: UserConfig): (s: Settings)
    ensures conf.apiKey.None? ==> s.apiKey == ""
    ensures conf.model.None? ==> s.model == DefaultModel
    ensures conf.maxTokens.None? ==> s.maxTokens == DefaultMaxTokens
    ensures conf.temperature.None? ==> s.temperature == DefaultTemperature
  {
    Settings(conf.apiKey.GetOr(""), conf.model.GetOr(DefaultModel),
             conf.generalPrompt.GetOr(DefaultGeneralPrompt), conf.youtubePrompt.GetOr(DefaultYoutubePrompt),
             conf.maxTokens.GetOr(DefaultMaxTokens), conf.temperature.GetOr(DefaultTemperature))
  }

  /** The guard: neither the key nor the model may be `empty()`. */
  predicate Configured(s: Settings) {
    !IsEmptyString(s.apiKey) && !IsEmptyString(s.model)
  }

  /** The article found for the requested id. */
  datatype Article = Article(link: string, content: string)

  /**
   * What the action depends on outside this model: the text a DOM parser extracts from
   * HTML with scripts and styles removed, the decoded title and description scraped
   * from a watch page (None when the page could not be fetched), the network, and
   * PHP's float-to-string conversion.
   */
  datatype World = World(
    domText: string -> string,
    videoPage: string -> Option<(string, string)>,
    net: Network,
    fmt: FloatFormat)

  /** The JSON envelope, or a fatal error that leaves no envelope at all. */
  datatype Output =
    | Success(summary: Json, isYoutube: bool)
    | Failure(error: string)
    | FatalError

  const MissingConfigMessage := "Missing Google Gemini API configuration. Please configure the extension first."
  const ArticleNotFoundMessage := "Article not found"
  const FailurePrefix := "Failed to generate summary: "

  /** htmlToText: the DOM text with each run of `\s` turned into one space, then trimmed. */
  function HtmlToText(html: string, domText: string -> string): string {
    Trim(Collapse(domText(html)))
  }

  /** getYouTubeVideoInfo: the scraped page, title and description cleaned up. */
  function VideoInfoOf(id: string, videoPage: string -> Option<(string, string)>): Option<VideoInfo> {
    var page := videoPage(WatchUrl(id));
    if page.None? then None else Some(VideoInfoFromPage(page.value.0, page.value.1))
  }

  /** The prompt text: the video context for a video link, the article's plain text otherwise. */
  function PromptFor(s: Settings, article: Article, id: Option<string>, world: World): string {
    if id.Some? then PromptText(s.youtubePrompt, VideoContext(id.value, VideoInfoOf(id.value, world.videoPage)))
    else PromptText(s.generalPrompt, HtmlToText(article.content, world.domText))
  }

  /** The envelope for the ladder's outcome; exceptions become `error` with a fixed prefix. */
  function Respond(result: LadderResult, isYoutube: bool): (out: Output)
    ensures out.Success? <==> result.Summary?
    ensures out.FatalError? <==> result.Crashed?
    ensures out.Success? ==> out.summary == result.text && out.isYoutube == isYoutube
    ensures out.Failure? <==> result.Failed? || result.Exhausted?
    ensures result.Failed? ==> out == Failure(FailurePrefix + result.message)
    ensures result.Exhausted? ==> out == Failure(FailurePrefix + ExhaustedMessage)
  {
    match result
    case Summary(text) => Success(text, isYoutube)
    case Failed(message) => Failure(FailurePrefix + message)
    case Exhausted => Failure(FailurePrefix + ExhaustedMessage)
    case Crashed => FatalError
  }

  /** A failure's error text is the fixed prefix followed by the reason, which reads back whole. */
  lemma RespondErrorReadsBack(result: LadderResult, isYoutube: bool)
    requires result.Failed? || result.Exhausted?
    ensures var out := Respond(result, isYoutube);
            && out.Failure? && FailurePrefix <= out.error
            && out.error[|FailurePrefix|..] == (if result.Failed? then result.message else ExhaustedMessage)
  {
  }

  /** The request payload and endpoint for an article. */
  function PayloadFor(s: Settings, article: Article, world: World): Request {
    var text := PromptFor(s, article, VideoIdOf(article.link), world);
    Request(ApiUrl(s.model, s.apiKey), BuildPayload(s.model, text, s.temperature, s.maxTokens))
  }

  /** What the action answers, as a function of its inputs. */
  function Answer(conf: UserConfig, entry: Option<Article>, world: World): (out: Output)
    ensures !Configured(Resolve(conf)) ==> out == Failure(MissingConfigMessage)
    ensures Configured(Resolve(conf)) && entry.None? ==> out == Failure(ArticleNotFoundMessage)
    ensures out.Success? ==> entry.Some? && out.isYoutube == VideoIdOf(entry.value.link).Some?
  {
    var s := Resolve(conf);
    if !Configured(s) then Failure(MissingConfigMessage)
    else if entry.None? then Failure(ArticleNotFoundMessage)
    else
      var req := PayloadFor(s, entry.value, world);
      Respond(Walk(Plan(req.url, req.payload), StepAt(world.net, world.fmt)), VideoIdOf(entry.value.link).Some?)
  }

  /**
   * The common tail of summarizeYouTubeVideo and summarizeTextContent: the endpoint and
   * payload for the model, then the fallback ladder.
   */
  method RequestSummary(s: Settings, text: string, world: World) returns (result: LadderResult, sent: seq<Request>)
    ensures var url := ApiUrl(s.model, s.apiKey);
            var data := BuildPayload(s.model, text, s.temperature, s.maxTokens);
            && result == Walk(Plan(url, data), StepAt(world.net, world.fmt))
            && 1 <= |sent| <= 5 && sent <= Plan(url, data)
    ensures IsV1Model(s.model) ==> |sent| <= 2
  {
    var url := ApiUrl(s.model, s.apiKey);
    var data := BuildPayload(s.model, text, s.temperature, s.maxTokens);
    result, sent := CallGeminiApi(url, data, world.net, world.fmt);
    ghost var plan := Plan(url, data);
    PlanBound(url, data);
    SentSomething(plan, StepAt(world.net, world.fmt));
    if IsV1Model(s.model) {
      V1LadderAtMostTwo(s.model, s.apiKey, text, s.temperature, s.maxTokens);
    }
  }

  /**
   * summarizeAction. `sent` lists the requests made to the generation API: none when
   * the settings are incomplete or the article is missing, otherwise a prefix of the
   * ladder's plan, at most five.
   */
  method Summarize(conf: UserConfig, entry: Option<Article>, world: World)
    returns (out: Output, sent: seq<Request>)
    ensures out == Answer(conf, entry, world)
    ensures !Configured(Resolve(conf)) || entry.None? ==> sent == []
    ensures Configured(Resolve(conf)) && entry.Some? ==>
              var req := PayloadFor(Resolve(conf), entry.value, world);
              1 <= |sent| <= 5 && sent <= Plan(req.url, req.payload)
    ensures IsV1Model(Resolve(conf).model) ==> |sent| <= 2
  {
    var s := Resolve(conf);
    if IsEmptyString(s.apiKey) || IsEmptyString(s.model) {
      return Failure(MissingConfigMessage), [];
    }
    if entry.None? {
      return Failure(ArticleNotFoundMessage), [];
    }
    var article := entry.value;
    var id := ExtractVideoId(article.link);
    var text;
    if id.Some? {
      VideoIdIsTruthy(id.value);
      var info := VideoInfoOf(id.value, world.videoPage);
      text := PromptText(s.youtubePrompt, VideoContext(id.value, info));
    } else {
      text := PromptText(s.generalPrompt, HtmlToText(article.content, world.domText));
    }
    assert text == PromptFor(s, article, VideoIdOf(article.link), world);
    var result;
    result, sent := RequestSummary(s, text, world);
    out := Respond(result, id.Some?);
  }

  /** A slice of a string without `\s` runs and with only plain spaces keeps both properties. */
  lemma SliceStaysNormal(s: string, a: nat, b: nat)
    requires a <= b <= |s| && NoSpaceRun(s) && OnlyPlainSpaces(s)
    ensures NoSpaceRun(s[a..b]) && OnlyPlainSpaces(s[a..b])
  {
    var t := s[a..b];
    assert forall i :: 0 <= i < |t| ==> t[i] == s[a + i];
  }

  /**
   * The article text sent to the model has no whitespace at either end, no two
   * whitespace characters in a row, and no whitespace other than plain spaces.
   */
  lemma HtmlToTextIsNormal(html: string, domText: string -> string)
    ensures var text := HtmlToText(html, domText);
            IsTrimmed(text) && NoSpaceRun(text) && OnlyPlainSpaces(text)
  {
    var c := Collapse(domText(html));
    TrimIsTrimmedSlice(c);
    var a, b :| 0 <= a <= b <= |c| && Trim(c) == c[a..b];
    SliceStaysNormal(c, a, b);
  }

  /**
   * The prompt for an article that is not a video link: the general prompt, a blank
   * line, and the article's normalised plain text.
   */
  lemma ArticlePrompt(s: Settings, article: Article, world: World)
    requires VideoIdOf(article.link).None?
    ensures var text := HtmlToText(article.content, world.domText);
            && PayloadText(PayloadFor(s, article, world).payload) == Some(JStr(s.generalPrompt + "\n\n" + text))
            && IsTrimmed(text) && NoSpaceRun(text) && OnlyPlainSpaces(text)
  {
    HtmlToTextIsNormal(article.content, world.domText);
  }

  /**
   * The prompt for a video link: the video prompt, a blank line, and the context block,
   * which begins with the request header and the line naming the video's watch URL,
   * and ends with the fixed note; that URL leads back to the same video.
   */
  lemma VideoPrompt(s: Settings, article: Article, world: World, id: string)
    requires VideoIdOf(article.link) == Some(id)
    ensures var ctx := VideoContext(id, VideoInfoOf(id, world.videoPage));
            && PayloadText(PayloadFor(s, article, world).payload) == Some(JStr(s.youtubePrompt + "\n\n" + ctx))
            && ContextHead(id) <= ctx
            && ctx[|ctx| - |ContextNote|..] == ContextNote
            && MatchPrefixed(WatchUrl(id)) == Some(id)
  {
    var url := article.link;
    if MatchPattern(Patterns[0], url).None? {
      assert MatchPattern(Patterns[1], url) == Some(id);
    }
    VideoIdShape(url);
    WatchUrlResolves(id);
  }
}
