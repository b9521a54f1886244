/**
 * The outbound request: endpoint URL, the two payload shapes, the switch to the other
 * API version and the three alternative payloads of the fallback ladder
 * (getApiUrl, the payload blocks of summarizeYouTubeVideo / summarizeTextContent,
 * getAlternativeApiUrl, getAlternativeRequestFormat).
 */
module RequestBuilder {
  import opened Wrappers
  import opened Json
  import opened PhpStrings

  const ApiHost := "https://generativelanguage.googleapis.com"
  const ApiBaseBeta := ApiHost + "/v1beta"
  const ApiBaseV1 := ApiHost + "/v1"

  /** Models sent to the v1 endpoint, with an explicit `role: user` in the payload. */
  const V1Models: seq<string> := ["gemini-2.5-flash", "gemini-2.5-pro", "gemini-2.0-flash"]

  predicate IsV1Model(model: string) {
    model in V1Models
  }

  /** getApiUrl: the base URL for a model. */
  function ApiBase(model: string): string {
    if IsV1Model(model) then ApiBaseV1 else ApiBaseBeta
  }

  /** The part of the endpoint URL after the version segment. */
  function EndpointTail(model: string, apiKey: string): string {
    "/models/" + model + ":generateContent?key=" + apiKey
  }

  /** The generateContent endpoint for a model, with the key as query parameter. */
  function ApiUrl(model: string, apiKey: string): string {
    ApiBase(model) + EndpointTail(model, apiKey)
  }

  datatype ApiVersion = V1 | V1Beta

  /** The API version a URL of this host addresses, read back from the path after the host. */
  function VersionOf(url: string): Option<ApiVersion> {
    if ApiHost <= url then PathVersion(url[|ApiHost|..]) else None
  }

  function PathVersion(path: string): Option<ApiVersion> {
    if "/v1/" <= path then Some(V1)
    else if "/v1beta/" <= path then Some(V1Beta)
    else None
  }

  lemma PathVersionOfBase(tail: string)
    requires |tail| > 0 && tail[0] == '/'
    ensures PathVersion("/v1" + tail) == Some(V1)
    ensures PathVersion("/v1beta" + tail) == Some(V1Beta)
  {
    assert ("/v1beta" + tail)[3] == 'b';
  }

  lemma VersionAfterHost(path: string)
    ensures VersionOf(ApiHost + path) == PathVersion(path)
  {
    assert (ApiHost + path)[..|ApiHost|] == ApiHost;
    assert (ApiHost + path)[|ApiHost|..] == path;
  }

  /** The v1 endpoint is chosen exactly for the models listed in V1_MODELS. */
  lemma ApiUrlVersion(model: string, apiKey: string)
    ensures VersionOf(ApiUrl(model, apiKey)) == Some(if IsV1Model(model) then V1 else V1Beta)
  {
    var tail := EndpointTail(model, apiKey);
    PathVersionOfBase(tail);
    if IsV1Model(model) {
      Regroup(ApiHost, "/v1", tail);
      VersionAfterHost("/v1" + tail);
    } else {
      Regroup(ApiHost, "/v1beta", tail);
      VersionAfterHost("/v1beta" + tail);
    }
  }

  /** A base URL followed by a tail is the host followed by the version path. */
  lemma Regroup(host: string, version: string, tail: string)
    ensures (host + version) + tail == host + (version + tail)
  {
  }

  // ---------------------------------------------------------------- payloads

  const DefaultTemperature: real := 0.7
  const DefaultMaxTokens: int := 1024
  const TopP: real := 0.9
  const TopK: int := 40

  /** The prompt text: template, a blank line, then the content. */
  function PromptText(prompt: string, content: string): string {
    prompt + "\n\n" + content
  }

  /** `generationConfig {temperature, maxOutputTokens, topP: 0.9, topK: 40}` */
  function GenerationConfig(temperature: real, maxTokens: int): Json {
    JObj([("temperature", JFloat(temperature)), ("maxOutputTokens", JInt(maxTokens)),
          ("topP", JFloat(TopP)), ("topK", JInt(TopK))])
  }

  /** One `contents` entry holding a single text part, with or without `role: user`. */
  function UserContent(text: Json, withRole: bool): Json {
    JObj((if withRole then [("role", JStr("user"))] else [])
         + [("parts", JArr([JObj([("text", text)])]))])
  }

  /** `$data['contents'][0]['parts'][0]['text']` */
  function PayloadText(data: Json): Option<Json> {
    Get(At(Get(At(Field(data, "contents"), 0), "parts"), 0), "text")
  }

  /** `$data['contents'][0]['role'] === 'user'` */
  predicate HasUserRole(data: Json) {
    Get(At(Field(data, "contents"), 0), "role") == Some(JStr("user"))
  }

  /**
   * The request body for a model: v1 models get the explicit role, the others the
   * original v1beta shape; both carry the same text and generation parameters.
   */
  function BuildPayload(model: string, text: string, temperature: real, maxTokens: int): (data: Json)
    ensures PayloadText(data) == Some(JStr(text))
    ensures HasUserRole(data) <==> IsV1Model(model)
    ensures Field(data, "generationConfig") == Some(GenerationConfig(temperature, maxTokens))
  {
    var content := UserContent(JStr(text), IsV1Model(model));
    var data := JObj([("contents", JArr([content])),
                      ("generationConfig", GenerationConfig(temperature, maxTokens))]);
    assert |"contents"| != |"generationConfig"| && |"role"| != |"parts"|;
    LookupPair("contents", JArr([content]), "generationConfig", GenerationConfig(temperature, maxTokens));
    var parts := JArr([JObj([("text", JStr(text))])]);
    LookupPair("role", JStr("user"), "parts", parts);
    LookupSingle("parts", parts, "role");
    LookupSingle("parts", parts, "parts");
    assert content.fields == if IsV1Model(model) then [("role", JStr("user")), ("parts", parts)]
                             else [("parts", parts)];
    assert Field(content, "parts") == Some(parts);
    assert Field(content, "role") == if IsV1Model(model) then Some(JStr("user")) else None;
    data
  }

  // ---------------------------------------------------------------- the other API version

  /**
   * getAlternativeApiUrl: every `/v1beta/` becomes `/v1/`; failing that every `/v1/`
   * becomes `/v1beta/`; a URL with neither is returned as it is.
   */
  function AlternativeApiUrl(url: string): (r: string)
    ensures !Contains(url, "/v1beta/") && !Contains(url, "/v1/") ==> r == url
  {
    if Contains(url, "/v1beta/") then ReplaceAll(url, "/v1beta/", "/v1/")
    else if Contains(url, "/v1/") then ReplaceAll(url, "/v1/", "/v1beta/")
    else url
  }

  /** A host name holding no `/v` and not ending in `/`. */
  predicate HostOk(h: string) {
    |h| > 0 && h[|h| - 1] != '/' &&
    forall i :: 0 <= i < |h| - 1 ==> h[i] != '/' || h[i + 1] != 'v'
  }

  lemma ApiHostOk()
    ensures HostOk(ApiHost)
  {
  }

  /** No version segment (`/v...`) can begin inside such a host. */
  lemma NoVersionInHost(h: string, t: string, a: string)
    requires HostOk(h)
    requires |a| >= 2 && a[0] == '/' && a[1] == 'v'
    ensures forall i :: 0 <= i < |h| ==> !StartsAt(h + t, i, a)
  {
    forall i | 0 <= i < |h|
      ensures !StartsAt(h + t, i, a)
    {
      var s := h + t;
      if i + |a| <= |s| {
        assert s[i..i + |a|][0] == s[i] == h[i];
        assert s[i..i + |a|][1] == s[i + 1];
        if i + 1 < |h| {
          assert s[i + 1] == h[i + 1];
        } else {
          assert h[i] != '/';
        }
      }
    }
  }

  /** No occurrence that starts inside a prefix: searching the rest is enough. */
  lemma ContainsSkip(p: string, t: string, a: string)
    requires forall i :: 0 <= i < |p| ==> !StartsAt(p + t, i, a)
    ensures Contains(p + t, a) <==> Contains(t, a)
  {
    var s := p + t;
    if Contains(s, a) {
      var i :| 0 <= i <= |s| - |a| && StartsAt(s, i, a);
      assert t[i - |p|..i - |p| + |a|] == s[i..i + |a|];
      assert StartsAt(t, i - |p|, a);
    }
    if Contains(t, a) {
      var i :| 0 <= i <= |t| - |a| && StartsAt(t, i, a);
      assert s[i + |p|..i + |p| + |a|] == t[i..i + |a|];
      assert StartsAt(s, i + |p|, a);
    }
  }

  /** The tail of an endpoint URL carries no version segment of its own. */
  predicate CleanTail(tail: string) {
    |tail| > 0 && tail[0] == '/' && !Contains(tail, "/v1/") && !Contains(tail, "/v1beta/")
  }

  lemma DropFirstStaysClean(tail: string, a: string)
    requires |tail| > 0 && !Contains(tail, a)
    ensures !Contains(tail[1..], a)
  {
    if Contains(tail[1..], a) {
      var i :| 0 <= i <= |tail[1..]| - |a| && StartsAt(tail[1..], i, a);
      assert tail[i + 1..i + 1 + |a|] == tail[1..][i..i + |a|];
      assert StartsAt(tail, i + 1, a);
    }
  }

  /** Switching a v1beta URL gives the v1 URL with the same tail. */
  lemma BetaToV1(h: string, tail: string)
    requires HostOk(h) && CleanTail(tail)
    ensures AlternativeApiUrl(h + ("/v1beta" + tail)) == h + ("/v1" + tail)
  {
    var rest := tail[1..];
    var path := "/v1beta/" + rest;
    assert tail == "/" + rest;
    assert "/v1beta" + tail == path;
    assert "/v1" + tail == "/v1/" + rest;
    NoVersionInHost(h, path, "/v1beta/");
    assert StartsAt(path, 0, "/v1beta/");
    ContainsSkip(h, path, "/v1beta/");
    ReplaceAllSkips(h, path, "/v1beta/", "/v1/");
    assert ReplaceAll(h + path, "/v1beta/", "/v1/") == h + ReplaceAll(path, "/v1beta/", "/v1/");
    ReplaceAllAtStart(rest, "/v1beta/", "/v1/");
    assert ReplaceAll(path, "/v1beta/", "/v1/") == "/v1/" + ReplaceAll(rest, "/v1beta/", "/v1/");
    DropFirstStaysClean(tail, "/v1beta/");
    ReplaceAllAbsent(rest, "/v1beta/", "/v1/");
    assert ReplaceAll(rest, "/v1beta/", "/v1/") == rest;
  }

  /** Switching a v1 URL gives the v1beta URL with the same tail. */
  lemma V1ToBeta(h: string, tail: string)
    requires HostOk(h) && CleanTail(tail)
    ensures AlternativeApiUrl(h + ("/v1" + tail)) == h + ("/v1beta" + tail)
  {
    V1PathSegments(h, tail);
    V1PathReplaced(h, tail);
  }

  /** A v1 endpoint URL holds the v1 segment and no v1beta segment. */
  lemma V1PathSegments(h: string, tail: string)
    requires HostOk(h) && CleanTail(tail)
    ensures !Contains(h + ("/v1" + tail), "/v1beta/") && Contains(h + ("/v1" + tail), "/v1/")
  {
    var path := "/v1/" + tail[1..];
    assert "/v1" + tail == path;
    NoVersionInHost(h, path, "/v1beta/");
    NoVersionInHost(h, path, "/v1/");
    forall i | 0 <= i < 3
      ensures !StartsAt(path, i, "/v1beta/")
    {
      if i + 8 <= |path| {
        assert path[i..i + 8][3] == path[i + 3];
      }
    }
    ContainsSkip("/v1", tail, "/v1beta/");
    ContainsSkip(h, path, "/v1beta/");
    assert StartsAt(path, 0, "/v1/");
    ContainsSkip(h, path, "/v1/");
  }

  /** Replacing the v1 segment of a v1 endpoint URL gives the v1beta URL with the same tail. */
  lemma V1PathReplaced(h: string, tail: string)
    requires HostOk(h) && CleanTail(tail)
    ensures ReplaceAll(h + ("/v1" + tail), "/v1/", "/v1beta/") == h + ("/v1beta" + tail)
  {
    var rest := tail[1..];
    var path := "/v1/" + rest;
    assert tail == "/" + rest;
    assert "/v1" + tail == path;
    assert "/v1beta" + tail == "/v1beta/" + rest;
    NoVersionInHost(h, path, "/v1/");
    ReplaceAllSkips(h, path, "/v1/", "/v1beta/");
    assert ReplaceAll(h + path, "/v1/", "/v1beta/") == h + ReplaceAll(path, "/v1/", "/v1beta/");
    ReplaceAllAtStart(rest, "/v1/", "/v1beta/");
    assert ReplaceAll(path, "/v1/", "/v1beta/") == "/v1beta/" + ReplaceAll(rest, "/v1/", "/v1beta/");
    DropFirstStaysClean(tail, "/v1/");
    ReplaceAllAbsent(rest, "/v1/", "/v1beta/");
    assert ReplaceAll(rest, "/v1/", "/v1beta/") == rest;
  }

  /**
   * For an endpoint URL whose model and key contain no version segment, switching the
   * version moves to the other API version, and switching twice gives back the original.
   */
  lemma AlternativeApiUrlRoundTrip(model: string, apiKey: string)
    requires !Contains(EndpointTail(model, apiKey), "/v1/")
    requires !Contains(EndpointTail(model, apiKey), "/v1beta/")
    ensures var url := ApiUrl(model, apiKey);
            && AlternativeApiUrl(url) != url
            && VersionOf(AlternativeApiUrl(url)) == Some(if IsV1Model(model) then V1Beta else V1)
            && AlternativeApiUrl(AlternativeApiUrl(url)) == url
  {
    var tail := EndpointTail(model, apiKey);
    assert CleanTail(tail);
    if IsV1Model(model) {
      Regroup(ApiHost, "/v1", tail);
      V1RoundTrip(tail);
    } else {
      Regroup(ApiHost, "/v1beta", tail);
      BetaRoundTrip(tail);
    }
  }

  /** From a v1 endpoint the switch goes to v1beta and back. */
  lemma V1RoundTrip(tail: string)
    requires CleanTail(tail)
    ensures var url := ApiHost + ("/v1" + tail);
            && AlternativeApiUrl(url) != url
            && VersionOf(AlternativeApiUrl(url)) == Some(V1Beta)
            && AlternativeApiUrl(AlternativeApiUrl(url)) == url
  {
    ApiHostOk();
    PathVersionOfBase(tail);
    VersionAfterHost("/v1" + tail);
    VersionAfterHost("/v1beta" + tail);
    V1ToBeta(ApiHost, tail);
    BetaToV1(ApiHost, tail);
  }

  /** From a v1beta endpoint the switch goes to v1 and back. */
  lemma BetaRoundTrip(tail: string)
    requires CleanTail(tail)
    ensures var url := ApiHost + ("/v1beta" + tail);
            && AlternativeApiUrl(url) != url
            && VersionOf(AlternativeApiUrl(url)) == Some(V1)
            && AlternativeApiUrl(AlternativeApiUrl(url)) == url
  {
    ApiHostOk();
    PathVersionOfBase(tail);
    VersionAfterHost("/v1" + tail);
    VersionAfterHost("/v1beta" + tail);
    BetaToV1(ApiHost, tail);
    V1ToBeta(ApiHost, tail);
  }

  // ---------------------------------------------------------------- alternative payloads

  /** The number of alternative payload shapes. */
  const AlternativeCount := 3

  /**
   * The body of alternative `index` for a prompt text: 0 the v1 shape with the explicit
   * role, 1 `{prompt: {text}}`, 2 `{input: {text}}`.
   */
  function AlternativeBody(index: nat, text: Json): Json
    requires index < AlternativeCount
  {
    if index == 0 then JObj([("contents", JArr([UserContent(text, true)]))])
    else if index == 1 then JObj([("prompt", JObj([("text", text)]))])
    else JObj([("input", JObj([("text", text)]))])
  }

  /**
   * The generation parameters carried over: alternative 0 rebuilds them, filling any
   * missing one with its default; the others copy them verbatim.
   */
  function AlternativeConfig(index: nat, gen: Json): Json {
    if index == 0 then
      JObj([("temperature", Coalesce(Field(gen, "temperature"), JFloat(DefaultTemperature))),
            ("maxOutputTokens", Coalesce(Field(gen, "maxOutputTokens"), JInt(DefaultMaxTokens))),
            ("topP", Coalesce(Field(gen, "topP"), JFloat(TopP))),
            ("topK", Coalesce(Field(gen, "topK"), JInt(TopK)))])
    else gen
  }

  /** `$alternative['generationConfig'] = ...` on a body that has no such key yet. */
  function WithConfig(body: Json, gen: Json): Json
    requires body.JObj?
  {
    JObj(body.fields + [("generationConfig", gen)])
  }

  /** Alternative `index` for a prompt text, with the generation parameters if set. */
  function Alternative(index: nat, text: Json, gen: Option<Json>): Json
    requires index < AlternativeCount
  {
    var body := AlternativeBody(index, text);
    if Isset(gen) then WithConfig(body, AlternativeConfig(index, gen.value)) else body
  }

  /**
   * getAlternativeRequestFormat: alternative `index` of a payload whose prompt text is
   * set; a payload without a text, or an index outside 0..2, comes back unchanged.
   */
  function AlternativeRequestFormat(data: Json, index: int): (r: Json)
    ensures !Isset(PayloadText(data)) || !(0 <= index < AlternativeCount) ==> r == data
  {
    var text := PayloadText(data);
    if Isset(text) && 0 <= index < AlternativeCount then
      Alternative(index, text.value, Field(data, "generationConfig"))
    else data
  }

  /**
   * Reading an alternative back: every key but `generationConfig` is the bare body's,
   * and `generationConfig` is present exactly when the original had one set.
   */
  lemma AlternativeFields(index: nat, text: Json, gen: Option<Json>, name: string)
    requires index < AlternativeCount
    ensures name != "generationConfig" ==>
              Field(Alternative(index, text, gen), name) == Field(AlternativeBody(index, text), name)
    ensures Field(Alternative(index, text, gen), "generationConfig")
            == if Isset(gen) then Some(AlternativeConfig(index, gen.value)) else None
  {
    var body := AlternativeBody(index, text);
    assert Lookup(body.fields, "generationConfig").None?;
    if Isset(gen) {
      var extra := [("generationConfig", AlternativeConfig(index, gen.value))];
      LookupAppend(body.fields, extra, name);
      LookupAppend(body.fields, extra, "generationConfig");
    }
  }

  /**
   * Each alternative carries the original prompt text in its own place: alternative 0
   * where the original has it, with `role: user`; 1 under `prompt`; 2 under `input`.
   */
  lemma AlternativeKeepsText(data: Json, index: int)
    requires Isset(PayloadText(data)) && 0 <= index < AlternativeCount
    ensures var r := AlternativeRequestFormat(data, index);
            && (index == 0 ==> PayloadText(r) == PayloadText(data) && HasUserRole(r))
            && (index == 1 ==> Get(Field(r, "prompt"), "text") == PayloadText(data) && Field(r, "contents").None?)
            && (index == 2 ==> Get(Field(r, "input"), "text") == PayloadText(data) && Field(r, "contents").None?)
            && (Field(r, "generationConfig").Some? <==> Isset(Field(data, "generationConfig")))
  {
    var text := PayloadText(data).value;
    var gen := Field(data, "generationConfig");
    AlternativeFields(index, text, gen, "contents");
    AlternativeFields(index, text, gen, "prompt");
    AlternativeFields(index, text, gen, "input");
    var parts := JArr([JObj([("text", text)])]);
    var content := UserContent(text, true);
    assert content.fields == [("role", JStr("user")), ("parts", parts)];
    assert |"role"| != |"parts"|;
    LookupPair("role", JStr("user"), "parts", parts);
    assert Field(content, "parts") == Some(parts);
    assert |"prompt"| != |"contents"| && |"input"| != |"contents"|;
    LookupSingle("prompt", JObj([("text", text)]), "contents");
    LookupSingle("input", JObj([("text", text)]), "contents");
  }

  /**
   * The generation parameters of an alternative: alternative 0 reads each of the four
   * from the original's config, or takes 0.7, 1024, 0.9 and 40 when it is not set;
   * alternatives 1 and 2 copy the original's config as it is.
   */
  lemma AlternativeConfigKept(data: Json, index: int)
    requires Isset(PayloadText(data)) && 0 <= index < AlternativeCount
    requires Isset(Field(data, "generationConfig"))
    ensures var r := AlternativeRequestFormat(data, index);
            var gen := Field(data, "generationConfig").value;
            && (index != 0 ==> Field(r, "generationConfig") == Field(data, "generationConfig"))
            && (index == 0 ==>
                  (&& Field(r, "generationConfig").Some?
                   && var out := Field(r, "generationConfig").value;
                   && Field(out, "temperature") == Some(Coalesce(Field(gen, "temperature"), JFloat(DefaultTemperature)))
                   && Field(out, "maxOutputTokens") == Some(Coalesce(Field(gen, "maxOutputTokens"), JInt(DefaultMaxTokens)))
                   && Field(out, "topP") == Some(Coalesce(Field(gen, "topP"), JFloat(TopP)))
                   && Field(out, "topK") == Some(Coalesce(Field(gen, "topK"), JInt(TopK)))))
  {
    var text := PayloadText(data).value;
    var gen := Field(data, "generationConfig");
    AlternativeFields(index, text, gen, "generationConfig");
    if index == 0 {
      var g := gen.value;
      ConfigFields(Coalesce(Field(g, "temperature"), JFloat(DefaultTemperature)),
                   Coalesce(Field(g, "maxOutputTokens"), JInt(DefaultMaxTokens)),
                   Coalesce(Field(g, "topP"), JFloat(TopP)),
                   Coalesce(Field(g, "topK"), JInt(TopK)));
    }
  }

  /** The four generation parameters of a config object read back under their keys. */
  lemma ConfigFields(temperature: Json, maxTokens: Json, topP: Json, topK: Json)
    ensures var f := [("temperature", temperature), ("maxOutputTokens", maxTokens),
                      ("topP", topP), ("topK", topK)];
            && Field(JObj(f), "temperature") == Some(temperature)
            && Field(JObj(f), "maxOutputTokens") == Some(maxTokens)
            && Field(JObj(f), "topP") == Some(topP)
            && Field(JObj(f), "topK") == Some(topK)
  {
    var f := [("temperature", temperature), ("maxOutputTokens", maxTokens), ("topP", topP), ("topK", topK)];
    assert f[1..] == [("maxOutputTokens", maxTokens), ("topP", topP), ("topK", topK)];
    assert f[1..][1..] == [("topP", topP), ("topK", topK)];
    assert f[1..][1..][1..] == [("topK", topK)];
    assert Lookup(f, "maxOutputTokens") == Lookup(f[1..], "maxOutputTokens");
    assert Lookup(f, "topP") == Lookup(f[1..], "topP") == Lookup(f[1..][1..], "topP");
    assert Lookup(f, "topK") == Lookup(f[1..], "topK") == Lookup(f[1..][1..], "topK")
        == Lookup(f[1..][1..][1..], "topK");
  }

  /** The generation parameters read back under their own keys. */
  lemma GenerationConfigFields(temperature: real, maxTokens: int)
    ensures var gen := GenerationConfig(temperature, maxTokens);
            && Field(gen, "temperature") == Some(JFloat(temperature))
            && Field(gen, "maxOutputTokens") == Some(JInt(maxTokens))
            && Field(gen, "topP") == Some(JFloat(TopP))
            && Field(gen, "topK") == Some(JInt(TopK))
  {
    ConfigFields(JFloat(temperature), JInt(maxTokens), JFloat(TopP), JInt(TopK));
  }

  /**
   * For a v1 model the payload already has the shape of alternative 0, so asking for it
   * returns a payload identical to the original (the ladder stops there).
   */
  lemma V1PayloadIsOwnAlternative(model: string, text: string, temperature: real, maxTokens: int)
    requires IsV1Model(model)
    ensures var data := BuildPayload(model, text, temperature, maxTokens);
            AlternativeRequestFormat(data, 0) == data
  {
    var data := BuildPayload(model, text, temperature, maxTokens);
    var gen := GenerationConfig(temperature, maxTokens);
    GenerationConfigFields(temperature, maxTokens);
    assert AlternativeConfig(0, gen) == gen;
  }

  /**
   * For any other model each of the three alternatives differs from the original
   * payload: 0 adds the role, 1 and 2 drop `contents`.
   */
  lemma BetaPayloadAlternativesDiffer(model: string, text: string, temperature: real, maxTokens: int, index: int)
    requires !IsV1Model(model) && 0 <= index < AlternativeCount
    ensures var data := BuildPayload(model, text, temperature, maxTokens);
            AlternativeRequestFormat(data, index) != data
  {
    var data := BuildPayload(model, text, temperature, maxTokens);
    AlternativeKeepsText(data, index);
  }
}
