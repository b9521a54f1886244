/**
 * The fallback ladder of callGeminiAPI: one request to the primary endpoint, one to the
 * other API version when that URL differs, then up to three alternative payloads, each
 * reply classified as makeGeminiRequest does and parsed as parseGeminiResponse does.
 * The network is a function from a request to the reply it gets.
 */
module Negotiator {
  import opened Wrappers
  import opened Json
  import opened PhpStrings
  import opened RequestBuilder
  import opened ResponseParser

  /** A POST of a JSON payload to an endpoint. */
  datatype Request = Request(url: string, payload: Json)

  /**
   * What curl and `json_decode` hand back for a request: `curl_error()` ("" when none),
   * the HTTP status, the raw body, and the decoded body (`null` when it does not decode).
   */
  datatype Reply = Reply(curlError: string, httpCode: int, raw: string, body: Json)

  type Network = Request -> Reply

  /** The outcome of makeGeminiRequest. */
  datatype Attempt =
    | Transport(error: string)                 // curl failed: throws
    | HttpErrWithMsg(code: int, message: Json) // non-200 with an `error` object: throws
    | HttpErrNoMsg                             // non-200 without one: returns null
    | BadJson(raw: string)                     // 200 whose decoded body is falsy: throws
    | Ok(result: Json)                         // 200 with a truthy decoded body

  const UnknownError := JStr("Unknown error")

  /** makeGeminiRequest, classifying one reply. */
  function Classify(reply: Reply): (a: Attempt)
    ensures a.Transport? <==> !IsEmptyString(reply.curlError)
    ensures a.HttpErrWithMsg? || a.HttpErrNoMsg? <==> IsEmptyString(reply.curlError) && reply.httpCode != 200
    ensures a.HttpErrWithMsg? <==>
              IsEmptyString(reply.curlError) && reply.httpCode != 200
              && !IsEmpty(reply.body) && Isset(Field(reply.body, "error"))
    ensures a.HttpErrWithMsg? ==> a.code == reply.httpCode
    ensures a.BadJson? <==> IsEmptyString(reply.curlError) && reply.httpCode == 200 && IsEmpty(reply.body)
    ensures a.Ok? ==> reply.httpCode == 200 && a.result == reply.body && !IsEmpty(a.result)
  {
    if !IsEmptyString(reply.curlError) then Transport(reply.curlError)
    else if reply.httpCode != 200 then
      if !IsEmpty(reply.body) && Isset(Field(reply.body, "error")) then
        HttpErrWithMsg(reply.httpCode, Coalesce(Get(Field(reply.body, "error"), "message"), UnknownError))
      else HttpErrNoMsg
    else if IsEmpty(reply.body) then BadJson(reply.raw)
    else Ok(reply.body)
  }

  /** How a call of callGeminiAPI ends. */
  datatype LadderResult =
    | Summary(text: Json)     // a parsed response
    | Failed(message: string) // an exception from makeGeminiRequest
    | Exhausted               // every attempt fell through
    | Crashed                 // a TypeError while parsing

  const ExhaustedMessage := "All request formats and API endpoints failed. This may indicate the model is not available or the API configuration is incorrect."

  /** A value interpolated into an exception message; arrays print as "Array". */
  function Interpolated(v: Json, fmt: FloatFormat): string {
    if IsArray(v) then "Array" else StringArg(v, fmt).value
  }

  /**
   * What one attempt does to the ladder: None to go on to the next attempt, or the
   * result it ends with.
   */
  function StepOf(a: Attempt, fmt: FloatFormat): (r: Option<LadderResult>)
    ensures r.Some? ==> !r.value.Exhausted?
  {
    match a
    case Transport(error) => Some(Failed("CURL Error: " + error))
    case HttpErrWithMsg(code, message) =>
      Some(Failed("API Error (HTTP " + IntToDecimal(code) + "): " + Interpolated(message, fmt)))
    case HttpErrNoMsg => None
    case BadJson(raw) => Some(Failed("Invalid JSON response from Gemini API: " + raw))
    case Ok(result) =>
      match ParseResponse(result, fmt)
      case Parsed(text) => Some(Summary(text))
      case Rejected(_) => None
      case Fatal => Some(Crashed)
  }

  /** What a request does to the ladder on a given network. */
  type Decider = Request -> Option<LadderResult>

  function StepAt(net: Network, fmt: FloatFormat): Decider {
    req => StepOf(Classify(net(req)), fmt)
  }

  // ---------------------------------------------------------------- the plan of attempts

  /** Alternative `i` of a payload, as a value the ladder can be walked over. */
  type AltFn = int -> Json

  function AltOf(data: Json): AltFn {
    i => AlternativeRequestFormat(data, i)
  }

  /** The alternative payloads from index `i` on, up to the first that equals the original. */
  function AltPlan(url: string, data: Json, alt: AltFn, i: nat): (p: seq<Request>)
    ensures |p| <= if i < AlternativeCount then AlternativeCount - i else 0
    decreases AlternativeCount - i
  {
    if i >= AlternativeCount then []
    else if alt(i) == data then []
    else [Request(url, alt(i))] + AltPlan(url, data, alt, i + 1)
  }

  /** The requests callGeminiAPI makes, in order, when none of them ends the ladder. */
  function Plan(url: string, data: Json): seq<Request> {
    var altUrl := AlternativeApiUrl(url);
    [Request(url, data)] + (if altUrl != url then [Request(altUrl, data)] else []) + AltPlan(url, data, AltOf(data), 0)
  }

  /**
   * Walking the plan: the first attempt that ends the ladder decides it; when every one
   * falls through the ladder is exhausted.
   */
  function Walk(plan: seq<Request>, decide: Decider): LadderResult {
    if plan == [] then Exhausted
    else
      var step := decide(plan[0]);
      if step.Some? then step.value else Walk(plan[1..], decide)
  }

  /** The number of requests sent while walking the plan. */
  function Sent(plan: seq<Request>, decide: Decider): nat {
    if plan == [] then 0
    else if decide(plan[0]).Some? then 1
    else 1 + Sent(plan[1..], decide)
  }

  /** No more requests are sent than are planned. */
  lemma {:induction false} SentBound(plan: seq<Request>, decide: Decider)
    ensures Sent(plan, decide) <= |plan|
  {
    if plan != [] {
      SentBound(plan[1..], decide);
    }
  }

  /**
   * callGeminiAPI: the primary request, the other API version if its URL differs, then
   * alternative payloads 0..2 against the primary URL until one equals the original.
   * `sent` lists the requests made, in order.
   */
  method CallGeminiApi(url: string, data: Json, net: Network, fmt: FloatFormat)
    returns (r: LadderResult, sent: seq<Request>)
    ensures r == Walk(Plan(url, data), StepAt(net, fmt))
    ensures |sent| <= |Plan(url, data)| && sent == Plan(url, data)[..|sent|]
    ensures |sent| == Sent(Plan(url, data), StepAt(net, fmt))
  {
    var altUrl := AlternativeApiUrl(url);
    ghost var alts := AltPlan(url, data, AltOf(data), 0);
    ghost var plan := Plan(url, data);
    ghost var rest := plan;
    sent := [];
    var step := StepOf(Classify(net(Request(url, data))), fmt);
    if step.Some? {
      Stops(plan, sent, rest, StepAt(net, fmt));
      return step.value, [Request(url, data)];
    }
    Moves(plan, sent, rest, StepAt(net, fmt));
    sent, rest := [Request(url, data)], rest[1..];
    if altUrl != url {
      step := StepOf(Classify(net(Request(altUrl, data))), fmt);
      if step.Some? {
        Stops(plan, sent, rest, StepAt(net, fmt));
        sent := sent + [Request(altUrl, data)];
        return step.value, sent;
      }
      Moves(plan, sent, rest, StepAt(net, fmt));
      sent, rest := sent + [Request(altUrl, data)], rest[1..];
    }
    assert rest == alts;
    var more;
    r, more := TryAlternatives(url, data, AltOf(data), StepAt(net, fmt));
    Continues(plan, sent, rest, more, StepAt(net, fmt));
    sent := sent + more;
  }

  /** Requests sent from the rest of a plan, part way through it, continue the prefix already sent. */
  lemma Continues(plan: seq<Request>, sent: seq<Request>, rest: seq<Request>, more: seq<Request>,
                  decide: Decider)
    requires Progress(plan, sent, rest, decide)
    requires |more| <= |rest| && more == rest[..|more|] && |more| == Sent(rest, decide)
    ensures |sent + more| <= |plan| && sent + more == plan[..|sent + more|]
    ensures Walk(plan, decide) == Walk(rest, decide) && Sent(plan, decide) == |sent + more|
  {
    var k := |sent|;
    WalkAfter(plan, k, decide);
    assert plan[..k + |more|] == plan[..k] + plan[k..][..|more|];
  }

  /**
   * The `for` loop of callGeminiAPI: alternatives 0, 1 and 2 of the payload (`alt`), sent
   * to the primary URL, stopping at the first one identical to the original payload;
   * `decide` is what one request does on the network.
   */
  method TryAlternatives(url: string, data: Json, alt: AltFn, decide: Decider)
    returns (r: LadderResult, sent: seq<Request>)
    ensures r == Walk(AltPlan(url, data, alt, 0), decide)
    ensures |sent| <= |AltPlan(url, data, alt, 0)| && sent == AltPlan(url, data, alt, 0)[..|sent|]
    ensures |sent| == Sent(AltPlan(url, data, alt, 0), decide)
  {
    ghost var plan := AltPlan(url, data, alt, 0);
    ghost var rest := plan;
    sent := [];
    var i := 0;
    while i < AlternativeCount
      invariant 0 <= i <= AlternativeCount && rest == AltPlan(url, data, alt, i)
      invariant Progress(plan, sent, rest, decide)
    {
      var altData := alt(i);
      if altData == data {
        break;
      }
      var request := Request(url, altData);
      AltPlanStep(url, data, alt, i);
      var step := decide(request);
      if step.Some? {
        Stops(plan, sent, rest, decide);
        sent := sent + [request];
        return step.value, sent;
      }
      Moves(plan, sent, rest, decide);
      sent := sent + [request];
      rest := rest[1..];
      i := i + 1;
    }
    Finished(plan, sent, decide);
    return Exhausted, sent;
  }

  /** While an alternative differs from the original it is planned next, before the later ones. */
  lemma AltPlanStep(url: string, data: Json, alt: AltFn, i: nat)
    requires i < AlternativeCount && alt(i) != data
    ensures var p := AltPlan(url, data, alt, i);
            p != [] && p[0] == Request(url, alt(i)) && p[1..] == AltPlan(url, data, alt, i + 1)
  {
  }

  /** Every request in `sent` fell through: none of their replies ended the ladder. */
  ghost predicate FellThrough(sent: seq<Request>, decide: Decider) {
    forall j :: 0 <= j < |sent| ==> decide(sent[j]).None?
  }

  /** Part way through a plan: `sent` is the prefix already sent, every one of them fell through, and `rest` remains. */
  ghost predicate Progress(plan: seq<Request>, sent: seq<Request>, rest: seq<Request>, decide: Decider) {
    && |sent| <= |plan| && sent == plan[..|sent|] && rest == plan[|sent|..]
    && FellThrough(sent, decide)
  }

  /** Once the first `k` requests of a plan fell through, the rest of the plan decides the outcome and the count. */
  lemma {:induction false} WalkAfter(plan: seq<Request>, k: nat, decide: Decider)
    requires k <= |plan| && FellThrough(plan[..k], decide)
    ensures Walk(plan, decide) == Walk(plan[k..], decide)
    ensures Sent(plan, decide) == k + Sent(plan[k..], decide)
    decreases k
  {
    if k > 0 {
      assert plan[..k][0] == plan[0];
      var done := plan[1..][..k - 1];
      assert FellThrough(done, decide) by {
        forall j | 0 <= j < k - 1 ensures decide(done[j]).None? {
          assert done[j] == plan[..k][j + 1];
        }
      }
      WalkAfter(plan[1..], k - 1, decide);
      assert plan[1..][k - 1..] == plan[k..];
    }
  }

  /** With nothing left to send, the whole plan was sent and every attempt fell through. */
  lemma Finished(plan: seq<Request>, sent: seq<Request>, decide: Decider)
    requires Progress(plan, sent, [], decide)
    ensures sent == plan && Walk(plan, decide) == Exhausted && Sent(plan, decide) == |sent|
  {
    assert plan[..|plan|] == plan;
    WalkAfter(plan, |sent|, decide);
  }

  /** Sending the next planned request, when its reply ends the ladder, settles the plan. */
  lemma Stops(plan: seq<Request>, sent: seq<Request>, rest: seq<Request>, decide: Decider)
    requires Progress(plan, sent, rest, decide) && rest != [] && decide(rest[0]).Some?
    ensures var now := sent + [rest[0]];
            && |now| <= |plan| && now == plan[..|now|]
            && Walk(plan, decide) == decide(rest[0]).value && Sent(plan, decide) == |now|
  {
    var k := |sent|;
    WalkAfter(plan, k, decide);
    assert plan[..k] + [plan[k]] == plan[..k + 1];
  }

  /** Sending the next planned request, when its reply falls through, leaves the rest to decide. */
  lemma Moves(plan: seq<Request>, sent: seq<Request>, rest: seq<Request>, decide: Decider)
    requires Progress(plan, sent, rest, decide) && rest != [] && decide(rest[0]).None?
    ensures Progress(plan, sent + [rest[0]], rest[1..], decide)
  {
    var k := |sent|;
    assert plan[k..][1..] == plan[k + 1..];
    assert plan[..k] + [plan[k]] == plan[..k + 1];
    assert FellThrough(sent + [rest[0]], decide) by {
      forall j | 0 <= j < k + 1 ensures decide((sent + [rest[0]])[j]).None? {
        if j < k {
          assert (sent + [rest[0]])[j] == sent[j];
        }
      }
    }
  }

  /** A non-empty plan makes at least one request. */
  lemma SentSomething(plan: seq<Request>, decide: Decider)
    requires plan != []
    ensures Sent(plan, decide) >= 1
  {
  }

  /** An attempt that ends the ladder decides it, after one request. */
  lemma WalkStops(plan: seq<Request>, decide: Decider)
    requires plan != [] && decide(plan[0]).Some?
    ensures Walk(plan, decide) == decide(plan[0]).value
    ensures Sent(plan, decide) == 1
  {
  }

  /** An attempt that falls through leaves the rest of the plan to decide. */
  lemma WalkSkips(plan: seq<Request>, decide: Decider)
    requires plan != [] && decide(plan[0]).None?
    ensures Walk(plan, decide) == Walk(plan[1..], decide)
    ensures Sent(plan, decide) == 1 + Sent(plan[1..], decide)
  {
  }

  // ---------------------------------------------------------------- properties

  /**
   * How one attempt moves the ladder: a non-200 reply without an `error` object and any
   * refused parse go on to the next attempt; a curl error, a non-200 reply with an
   * `error` object and a falsy 200 body end it with their message; a parse ends it with
   * the summary.
   */
  lemma StepOfOutcomes(a: Attempt, fmt: FloatFormat)
    ensures StepOf(a, fmt).None? <==> a.HttpErrNoMsg? || (a.Ok? && ParseResponse(a.result, fmt).Rejected?)
    ensures a.Transport? || a.HttpErrWithMsg? || a.BadJson? ==> StepOf(a, fmt).Some? && StepOf(a, fmt).value.Failed?
    ensures StepOf(a, fmt).Some? && StepOf(a, fmt).value.Summary? <==> a.Ok? && ParseResponse(a.result, fmt).Parsed?
    ensures a.Ok? && ParseResponse(a.result, fmt).Parsed? ==> StepOf(a, fmt) == Some(Summary(ParseResponse(a.result, fmt).text))
  {
  }

  /**
   * A 200 reply whose body carries an `error` object, or whose first candidate was
   * blocked by the safety filters, does not end the ladder: parseGeminiResponse throws
   * an Exception, which callGeminiAPI catches before trying the next attempt.
   */
  lemma RefusedBodyMovesOn(reply: Reply, fmt: FloatFormat)
    requires IsEmptyString(reply.curlError) && reply.httpCode == 200 && !IsEmpty(reply.body)
    requires Isset(Field(reply.body, "error"))
             || (CandidatesPresent(reply.body) && Blocked(FirstCandidate(reply.body)))
    ensures StepOf(Classify(reply), fmt).None?
  {
    assert Classify(reply) == Ok(reply.body);
    var parse := ParseResponse(reply.body, fmt);
    assert parse.Rejected?;
  }

  /** No single attempt reports exhaustion; only running out of attempts does. */
  ghost predicate NeverExhausts(decide: Decider) {
    forall req :: decide(req) != Some(Exhausted)
  }

  lemma StepAtNeverExhausts(net: Network, fmt: FloatFormat)
    ensures NeverExhausts(StepAt(net, fmt))
  {
    forall req
      ensures StepAt(net, fmt)(req) != Some(Exhausted)
    {
      var step := StepOf(Classify(net(req)), fmt);
      assert StepAt(net, fmt)(req) == step;
    }
  }

  /**
   * The ladder ends at the first attempt that decides it, after exactly that many
   * requests; it is exhausted, after every request of the plan, exactly when no attempt
   * decides.
   */
  lemma {:induction false} WalkFirstDecisive(plan: seq<Request>, decide: Decider)
    requires NeverExhausts(decide)
    ensures Walk(plan, decide).Exhausted? <==> forall k :: 0 <= k < |plan| ==> decide(plan[k]).None?
    ensures Walk(plan, decide).Exhausted? ==> Sent(plan, decide) == |plan|
    ensures !Walk(plan, decide).Exhausted? ==>
              var n := Sent(plan, decide);
              && 1 <= n <= |plan|
              && decide(plan[n - 1]) == Some(Walk(plan, decide))
              && forall m :: 0 <= m < n - 1 ==> decide(plan[m]).None?
  {
    if plan != [] {
      WalkFirstDecisive(plan[1..], decide);
      assert forall k :: 1 <= k < |plan| ==> plan[k] == plan[1..][k - 1];
      if decide(plan[0]).None? {
        assert forall k :: 0 <= k < |plan[1..]| ==> plan[1..][k] == plan[k + 1];
      }
    }
  }

  /** Alternative plans of any payload family are sent in index order, to the primary URL. */
  lemma {:induction false} AltPlanIndex(url: string, data: Json, alt: AltFn, i: nat)
    ensures forall k :: 0 <= k < |AltPlan(url, data, alt, i)| ==>
              AltPlan(url, data, alt, i)[k] == Request(url, alt(i + k)) && alt(i + k) != data
    decreases AlternativeCount - i
  {
    if i < AlternativeCount && alt(i) != data {
      AltPlanIndex(url, data, alt, i + 1);
      var p := AltPlan(url, data, alt, i);
      var q := AltPlan(url, data, alt, i + 1);
      assert p == [Request(url, alt(i))] + q;
      forall k | 0 <= k < |p| ensures p[k] == Request(url, alt(i + k)) && alt(i + k) != data {
        if k > 0 {
          assert p[k] == q[k - 1];
          assert q[k - 1] == Request(url, alt(i + 1 + (k - 1)));
          assert i + 1 + (k - 1) == i + k;
        } else {
          assert p[0] == Request(url, alt(i));
        }
      }
    } else {
      assert AltPlan(url, data, alt, i) == [];
    }
  }

  /** The alternatives are sent in index order, to the primary URL. */
  lemma AltPlanOrder(url: string, data: Json, i: nat)
    ensures forall k :: 0 <= k < |AltPlan(url, data, AltOf(data), i)| ==>
              AltPlan(url, data, AltOf(data), i)[k] == Request(url, AlternativeRequestFormat(data, i + k))
    ensures forall k :: 0 <= k < |AltPlan(url, data, AltOf(data), i)| ==> AltPlan(url, data, AltOf(data), i)[k].payload != data
  {
    AltPlanIndex(url, data, AltOf(data), i);
  }

  /**
   * The order of attempts: the original request, then the other API version when its
   * URL differs, then the alternatives in index order; never more than five requests.
   */
  lemma PlanOrder(url: string, data: Json)
    ensures var plan := Plan(url, data);
            var altUrl := AlternativeApiUrl(url);
            var skip := if altUrl != url then 2 else 1;
            && 1 <= |plan| <= 5
            && plan[0] == Request(url, data)
            && (altUrl != url ==> plan[1] == Request(altUrl, data))
            && |plan| == skip + |AltPlan(url, data, AltOf(data), 0)|
            && forall k :: skip <= k < |plan| ==>
                 plan[k] == Request(url, AlternativeRequestFormat(data, k - skip))
                 && plan[k].payload != data
  {
    var altUrl := AlternativeApiUrl(url);
    var skip := if altUrl != url then 2 else 1;
    var plan := Plan(url, data);
    AltPlanOrder(url, data, 0);
    assert forall k :: skip <= k < |plan| ==> plan[k] == AltPlan(url, data, AltOf(data), 0)[k - skip];
  }

  /** At most five requests: the two API versions and three alternatives. */
  lemma PlanBound(url: string, data: Json)
    ensures 1 <= |Plan(url, data)| <= 5
  {
  }

  /**
   * For a v1 model the first alternative payload is identical to the original, so the
   * loop stops at once: at most two requests are ever made.
   */
  lemma V1LadderAtMostTwo(model: string, apiKey: string, text: string, temperature: real, maxTokens: int)
    requires IsV1Model(model)
    ensures |Plan(ApiUrl(model, apiKey), BuildPayload(model, text, temperature, maxTokens))| <= 2
  {
    V1PayloadIsOwnAlternative(model, text, temperature, maxTokens);
  }

  /**
   * For any other model whose endpoint carries no extra version segment, all five
   * requests are planned: both API versions, then the three alternatives.
   */
  lemma BetaLadderHasFive(model: string, apiKey: string, text: string, temperature: real, maxTokens: int)
    requires !IsV1Model(model)
    requires !Contains(EndpointTail(model, apiKey), "/v1/")
    requires !Contains(EndpointTail(model, apiKey), "/v1beta/")
    ensures |Plan(ApiUrl(model, apiKey), BuildPayload(model, text, temperature, maxTokens))| == 5
  {
    var url := ApiUrl(model, apiKey);
    var data := BuildPayload(model, text, temperature, maxTokens);
    AlternativeApiUrlRoundTrip(model, apiKey);
    BetaPayloadAlternativesDiffer(model, text, temperature, maxTokens, 0);
    BetaPayloadAlternativesDiffer(model, text, temperature, maxTokens, 1);
    BetaPayloadAlternativesDiffer(model, text, temperature, maxTokens, 2);
    assert |AltPlan(url, data, AltOf(data), 3)| == 0;
    assert |AltPlan(url, data, AltOf(data), 2)| == 1;
    assert |AltPlan(url, data, AltOf(data), 1)| == 2;
  }
}
