/**
 * Reading the generated text out of a decoded generateContent response
 * (parseGeminiResponse and combineTextParts): the guards on the response and its first
 * candidate, the eight text shapes tried in priority order, and the join of text parts.
 */
module ResponseParser {
  import opened Wrappers
  import opened Json
  import opened PhpStrings

  /** PHP's conversion of a float to a string; it is taken as given, not modelled. */
  type FloatFormat = real -> string

  // ---------------------------------------------------------------- combineTextParts

  /**
   * The string `trim()` receives for a value: strings as they are, integers in decimal,
   * `true` as "1", `false` and `null` as ""; an array makes `trim()` raise a TypeError (None).
   */
  function StringArg(v: Json, fmt: FloatFormat): (r: Option<string>)
    ensures r.None? <==> IsArray(v)
    ensures v.JStr? ==> r == Some(v.s)
  {
    match v
    case JNull => Some("")
    case JBool(b) => Some(if b then "1" else "")
    case JInt(i) => Some(IntToDecimal(i))
    case JFloat(x) => Some(fmt(x))
    case JStr(s) => Some(s)
    case _ => None
  }

  /** `$part_text` for one part: the part itself if it is a string, else its `text`, else its `content`, else "". */
  function PartText(part: Json): Json {
    if part.JStr? then part
    else if Isset(Field(part, "text")) then Field(part, "text").value
    else if Isset(Field(part, "content")) then Field(part, "content").value
    else JStr("")
  }

  /** The trimmed text of one part; None when `trim()` raises. */
  function Piece(part: Json, fmt: FloatFormat): Option<string> {
    var arg := StringArg(PartText(part), fmt);
    if arg.None? then None else Some(Trim(arg.value))
  }

  /** A per-part piece function; the loop's bookkeeping does not depend on what it computes. */
  type PieceFn = Json -> Option<string>

  function PieceOf(fmt: FloatFormat): PieceFn {
    part => Piece(part, fmt)
  }

  /** What a trimmed piece adds to `$text_parts`: nothing when it is empty. */
  function Contribution(piece: string): seq<string> {
    if IsEmptyString(piece) then [] else [piece]
  }

  /** `$text_parts` once the `foreach` has visited `parts`; None once a `trim()` raised. */
  function Kept(parts: seq<Json>, piece: PieceFn): Option<seq<string>>
    decreases |parts|
  {
    if parts == [] then Some([])
    else
      var earlier := Kept(parts[..|parts| - 1], piece);
      var last := piece(parts[|parts| - 1]);
      if earlier.None? || last.None? then None
      else Some(earlier.value + Contribution(last.value))
  }

  /** `implode(' ', $pieces)`. */
  function Join(pieces: seq<string>): string {
    if pieces == [] then ""
    else if |pieces| == 1 then pieces[0]
    else pieces[0] + " " + Join(pieces[1..])
  }

  /** combineTextParts: the joined non-empty trimmed part texts; "" for a non-array; None when `trim()` raises. */
  function CombineTextParts(parts: Json, fmt: FloatFormat): Option<string> {
    if !IsArray(parts) then Some("")
    else
      var kept := Kept(Values(parts), PieceOf(fmt));
      if kept.None? then None else Some(Join(kept.value))
  }

  /** One more iteration of the `foreach`. */
  lemma KeptStep(values: seq<Json>, i: nat, piece: PieceFn)
    requires i < |values|
    ensures Kept(values[..i + 1], piece)
            == if Kept(values[..i], piece).None? || piece(values[i]).None? then None
               else Some(Kept(values[..i], piece).value + Contribution(piece(values[i]).value))
  {
    assert values[..i + 1][..i] == values[..i];
  }

  /** A part that `trim()` rejects makes the whole loop raise. */
  lemma KeptFails(values: seq<Json>, i: nat, piece: PieceFn)
    requires i < |values| && piece(values[i]).None?
    ensures Kept(values, piece).None?
  {
    KeptIsPieces(values, piece);
  }

  /** The loop body's effect on `$text_parts` for a part `trim()` accepts. */
  lemma KeptGrows(values: seq<Json>, i: nat, fmt: FloatFormat, textParts: seq<string>, arg: string)
    requires i < |values| && Kept(values[..i], PieceOf(fmt)) == Some(textParts)
    requires StringArg(PartText(values[i]), fmt) == Some(arg)
    ensures Kept(values[..i + 1], PieceOf(fmt)) == Some(textParts + Contribution(Trim(arg)))
  {
    KeptStep(values, i, PieceOf(fmt));
    assert PieceOf(fmt)(values[i]) == Some(Trim(arg));
  }

  /** Appending a piece's contribution: an `empty()` piece adds nothing, any other is appended. */
  lemma AppendContribution(textParts: seq<string>, piece: string)
    ensures textParts + Contribution(piece)
            == if IsEmptyString(piece) then textParts else textParts + [piece]
  {
    if IsEmptyString(piece) {
      assert textParts + [] == textParts;
    }
  }

  /** A part whose text is an array makes `trim()` raise, and with it the whole loop. */
  lemma KeptRaises(values: seq<Json>, i: nat, fmt: FloatFormat)
    requires i < |values| && StringArg(PartText(values[i]), fmt).None?
    ensures Kept(values, PieceOf(fmt)).None?
  {
    assert PieceOf(fmt)(values[i]).None?;
    KeptFails(values, i, PieceOf(fmt));
  }

  /** The `foreach` that collects `$text_parts`; None when a `trim()` raises. */
  method CollectTextParts(values: seq<Json>, fmt: FloatFormat) returns (r: Option<seq<string>>)
    ensures r == Kept(values, PieceOf(fmt))
  {
    var textParts: seq<string> := [];
    for i := 0 to |values|
      invariant Kept(values[..i], PieceOf(fmt)) == Some(textParts)
    {
      var partText := PartText(values[i]);
      var arg := StringArg(partText, fmt);
      if arg.None? {
        KeptRaises(values, i, fmt);
        return None;
      }
      var trimmed := Trim(arg.value);
      KeptGrows(values, i, fmt, textParts, arg.value);
      AppendContribution(textParts, trimmed);
      if !IsEmptyString(trimmed) {
        textParts := textParts + [trimmed];
      }
    }
    assert values[..|values|] == values;
    return Some(textParts);
  }

  /** combineTextParts: "" for a non-array, otherwise the collected parts joined by spaces. */
  method CombineTextPartsLoop(parts: Json, fmt: FloatFormat) returns (r: Option<string>)
    ensures r == CombineTextParts(parts, fmt)
  {
    if !IsArray(parts) {
      return Some("");
    }
    var textParts := CollectTextParts(Values(parts), fmt);
    if textParts.None? {
      return None;
    }
    return Some(Join(textParts.value));
  }

  /** Every part can be handed to `trim()`. */
  predicate AllTrimmable(parts: seq<Json>, piece: PieceFn) {
    forall k :: 0 <= k < |parts| ==> piece(parts[k]).Some?
  }

  /** The pieces kept, written front to back: each part's trimmed text unless it is empty. */
  function Pieces(parts: seq<Json>, piece: PieceFn): seq<string>
    requires AllTrimmable(parts, piece)
  {
    if parts == [] then [] else Contribution(piece(parts[0]).value) + Pieces(parts[1..], piece)
  }

  lemma {:induction false} PiecesSnoc(parts: seq<Json>, piece: PieceFn)
    requires parts != [] && AllTrimmable(parts, piece)
    ensures Pieces(parts, piece)
            == Pieces(parts[..|parts| - 1], piece) + Contribution(piece(parts[|parts| - 1]).value)
  {
    if |parts| > 1 {
      var init := parts[..|parts| - 1];
      assert parts[1..][..|parts[1..]| - 1] == init[1..];
      PiecesSnoc(parts[1..], piece);
    }
  }

  /**
   * The loop's `$text_parts` is the front-to-back list of non-empty trimmed pieces,
   * in the original order, and the loop raises exactly when some part is an array
   * where `trim()` needs a string.
   */
  lemma {:induction false} KeptIsPieces(parts: seq<Json>, piece: PieceFn)
    ensures Kept(parts, piece).Some? <==> AllTrimmable(parts, piece)
    ensures AllTrimmable(parts, piece) ==> Kept(parts, piece) == Some(Pieces(parts, piece))
    decreases |parts|
  {
    if parts != [] {
      var n := |parts| - 1;
      var init := parts[..n];
      KeptIsPieces(init, piece);
      KeptStep(parts, n, piece);
      assert parts[..n + 1] == parts;
      if AllTrimmable(parts, piece) {
        assert AllTrimmable(init, piece) by {
          forall k | 0 <= k < n ensures piece(init[k]).Some? {
            assert init[k] == parts[k];
          }
        }
        PiecesSnoc(parts, piece);
      } else if AllTrimmable(init, piece) {
        var k :| 0 <= k < |parts| && piece(parts[k]).None?;
        if k < n {
          assert init[k] == parts[k];
        }
      }
    }
  }

  /** Each piece is non-empty and has no whitespace at either end. */
  predicate TrimmedPieces(pieces: seq<string>) {
    forall k :: 0 <= k < |pieces| ==> !IsEmptyString(pieces[k]) && IsTrimmed(pieces[k])
  }

  lemma TrimmedPiecesConcat(a: seq<string>, b: seq<string>)
    requires TrimmedPieces(a) && TrimmedPieces(b)
    ensures TrimmedPieces(a + b)
  {
    forall k | 0 <= k < |a + b| ensures !IsEmptyString((a + b)[k]) && IsTrimmed((a + b)[k]) {
      if k >= |a| {
        assert (a + b)[k] == b[k - |a|];
      }
    }
  }

  /** The contribution of one part is a list of trimmed, non-empty pieces. */
  lemma HeadPieceTrimmed(part: Json, fmt: FloatFormat)
    requires PieceOf(fmt)(part).Some?
    ensures TrimmedPieces(Contribution(PieceOf(fmt)(part).value))
  {
    var arg := StringArg(PartText(part), fmt).value;
    assert PieceOf(fmt)(part) == Some(Trim(arg));
    TrimContribution(arg);
  }

  /** A trimmed string contributes trimmed, non-empty pieces. */
  lemma TrimContribution(arg: string)
    ensures TrimmedPieces(Contribution(Trim(arg)))
  {
    TrimIsTrimmedSlice(arg);
  }

  lemma AllTrimmableTail(parts: seq<Json>, piece: PieceFn)
    requires parts != [] && AllTrimmable(parts, piece)
    ensures AllTrimmable(parts[1..], piece)
  {
    forall k | 0 <= k < |parts| - 1 ensures piece(parts[1..][k]).Some? {
      assert parts[1..][k] == parts[k + 1];
    }
  }

  /** Every kept piece is non-empty and has no whitespace at either end. */
  lemma {:induction false} PiecesAreTrimmed(parts: seq<Json>, fmt: FloatFormat)
    requires AllTrimmable(parts, PieceOf(fmt))
    ensures TrimmedPieces(Pieces(parts, PieceOf(fmt)))
  {
    if parts != [] {
      HeadPieceTrimmed(parts[0], fmt);
      AllTrimmableTail(parts, PieceOf(fmt));
      PiecesAreTrimmed(parts[1..], fmt);
      TrimmedPiecesConcat(Contribution(PieceOf(fmt)(parts[0]).value), Pieces(parts[1..], PieceOf(fmt)));
    }
  }

  /**
   * Joining non-empty trimmed pieces gives a trimmed string, and it is empty in PHP's
   * sense exactly when there is no piece.
   */
  lemma {:induction false} JoinOfTrimmed(pieces: seq<string>)
    requires TrimmedPieces(pieces)
    ensures IsTrimmed(Join(pieces))
    ensures IsEmptyString(Join(pieces)) <==> pieces == []
    ensures pieces != [] ==> Join(pieces) != []
  {
    if |pieces| > 1 {
      JoinOfTrimmed(pieces[1..]);
      var j := Join(pieces);
      assert j == pieces[0] + " " + Join(pieces[1..]);
      assert j[0] == pieces[0][0];
      assert j[|j| - 1] == Join(pieces[1..])[|Join(pieces[1..])| - 1];
      assert |j| >= 3;
    }
  }

  /**
   * combineTextParts on a list of parts: the joined text has no whitespace at either end,
   * and it is empty exactly when no part contributed a non-empty trimmed text.
   */
  lemma CombinedTextIsTrimmed(parts: Json, fmt: FloatFormat)
    requires IsArray(parts) && AllTrimmable(Values(parts), PieceOf(fmt))
    ensures var r := CombineTextParts(parts, fmt);
            && r == Some(Join(Pieces(Values(parts), PieceOf(fmt))))
            && IsTrimmed(r.value)
            && (IsEmptyString(r.value) <==> Pieces(Values(parts), PieceOf(fmt)) == [])
  {
    KeptIsPieces(Values(parts), PieceOf(fmt));
    PiecesAreTrimmed(Values(parts), fmt);
    JoinOfTrimmed(Pieces(Values(parts), PieceOf(fmt)));
  }

  // ---------------------------------------------------------------- parseGeminiResponse

  /** Why a response is refused; each is an Exception the fallback ladder catches. */
  datatype Rejection =
    | ApiErrorInBody(message: Json)   // a top-level `error`, with its message or "Unknown API error"
    | NoCandidates                    // `candidates` missing, not an array, or empty
    | ContentBlocked                  // a safety finish reason
    | TruncatedWithoutParts           // MAX_TOKENS with a `model` content that has no parts
    | NoTextFound                     // none of the eight shapes holds text

  /**
   * The outcome of parsing: the extracted value, a rejection, or a TypeError (`trim()` on
   * an array, `array_keys()` on a non-array), which no `catch (Exception)` intercepts.
   */
  datatype Parse = Parsed(text: Json) | Rejected(reason: Rejection) | Fatal

  const UnknownApiError := JStr("Unknown API error")
  const BlockingReasons: seq<string> := ["SAFETY", "RECITATION", "PROHIBITED_CONTENT"]

  /**
   * `in_array($reason, [...])` with PHP's loose comparison: against these non-numeric
   * strings only an equal string or `true` compares equal.
   */
  predicate IsBlockingReason(reason: Json) {
    (reason.JStr? && reason.s in BlockingReasons) || reason == JBool(true)
  }

  /** `$result['candidates'][0]`, or `null` when there is no element 0. */
  function FirstCandidate(result: Json): Json {
    At(Field(result, "candidates"), 0).GetOr(JNull)
  }

  /** `candidates` is set, is an array and is not empty. */
  predicate CandidatesPresent(result: Json) {
    var candidates := Field(result, "candidates");
    Isset(candidates) && IsArray(candidates.value) && !IsEmpty(candidates.value)
  }

  /** The candidate's `finishReason` is set and is one of the safety reasons. */
  predicate Blocked(candidate: Json) {
    var reason := Field(candidate, "finishReason");
    Isset(reason) && IsBlockingReason(reason.value)
  }

  /** MAX_TOKENS together with a `content` whose `role` is `model` and which has no `parts`. */
  predicate TruncatedShape(candidate: Json) {
    var content := Field(candidate, "content");
    Field(candidate, "finishReason") == Some(JStr("MAX_TOKENS"))
    && Isset(content) && Isset(Get(content, "role")) && Get(content, "role") == Some(JStr("model"))
    && !Isset(Get(content, "parts"))
  }

  /** The eight places a candidate may hold its text, in the order they are tried. */
  datatype TextShape =
    | ContentParts        // 1: content.parts, joined
    | Parts               // 2: parts, joined
    | DirectText          // 3: text
    | Output              // 4: output
    | MessageContent      // 5: message.content
    | ContentText         // 6: content.text
    | ContentString       // 7: content, when it is a string
    | Named(name: string) // 8: response, generated_text, completion, answer

  const TextShapes: seq<TextShape> :=
    [ContentParts, Parts, DirectText, Output, MessageContent, ContentText, ContentString,
     Named("response"), Named("generated_text"), Named("completion"), Named("answer")]

  /** What trying one shape gives: a value, nothing, or a TypeError. */
  datatype Extraction = Found(value: Json) | NotFound | Raised

  /** Formats 1 and 2: join the parts when they are a set array; an empty join is no text. */
  function FromParts(parts: Option<Json>, fmt: FloatFormat): Extraction {
    if Isset(parts) && IsArray(parts.value) then
      var text := CombineTextParts(parts.value, fmt);
      if text.None? then Raised
      else if IsEmptyString(text.value) then NotFound
      else Found(JStr(text.value))
    else NotFound
  }

  /** Formats 3 to 6 and 8: a set, non-empty value is returned as it is. */
  function NonEmpty(o: Option<Json>): Extraction {
    if Isset(o) && !IsEmpty(o.value) then Found(o.value) else NotFound
  }

  function TryShape(shape: TextShape, candidate: Json, fmt: FloatFormat): Extraction {
    var content := Field(candidate, "content");
    match shape
    case ContentParts => FromParts(Get(content, "parts"), fmt)
    case Parts => FromParts(Field(candidate, "parts"), fmt)
    case DirectText => NonEmpty(Field(candidate, "text"))
    case Output => NonEmpty(Field(candidate, "output"))
    case MessageContent => NonEmpty(Get(Field(candidate, "message"), "content"))
    case ContentText => NonEmpty(Get(content, "text"))
    case ContentString => if Isset(content) && content.value.JStr? then Found(content.value) else NotFound
    case Named(name) => NonEmpty(Field(candidate, name))
  }

  /** Trying the shapes on one candidate. */
  type ShapeTry = TextShape -> Extraction

  function TryOn(candidate: Json, fmt: FloatFormat): ShapeTry {
    shape => TryShape(shape, candidate, fmt)
  }

  /**
   * The shapes tried in order: the first one that finds a value or raises decides;
   * every shape before it found nothing.
   */
  function FirstShape(shapes: seq<TextShape>, try: ShapeTry): (r: Extraction)
    ensures r.NotFound? <==> forall k :: 0 <= k < |shapes| ==> try(shapes[k]).NotFound?
    ensures !r.NotFound? ==> exists k :: 0 <= k < |shapes| && r == try(shapes[k])
                                && forall m :: 0 <= m < k ==> try(shapes[m]).NotFound?
  {
    if shapes == [] then NotFound
    else
      var first := try(shapes[0]);
      if !first.NotFound? then first
      else
        var r := FirstShape(shapes[1..], try);
        assert forall k :: 1 <= k < |shapes| ==> shapes[k] == shapes[1..][k - 1];
        if r.NotFound? then r
        else
          var k :| 0 <= k < |shapes[1..]| && r == try(shapes[1..][k])
                   && forall m :: 0 <= m < k ==> try(shapes[1..][m]).NotFound?;
          assert forall m :: 0 <= m < k + 1 ==> try(shapes[m]).NotFound?;
          r
  }

  /** The first shape that does not come up empty decides. */
  lemma {:induction false} FirstShapeAt(shapes: seq<TextShape>, try: ShapeTry, k: nat)
    requires k < |shapes| && !try(shapes[k]).NotFound?
    requires forall m :: 0 <= m < k ==> try(shapes[m]).NotFound?
    ensures FirstShape(shapes, try) == try(shapes[k])
  {
    if k > 0 {
      assert try(shapes[0]).NotFound?;
      assert forall m :: 0 <= m < k - 1 ==> shapes[1..][m] == shapes[m + 1];
      FirstShapeAt(shapes[1..], try, k - 1);
    }
  }

  /**
   * The text of a candidate that passed the guards: the value of the first shape that
   * holds one, which is a non-empty value or a string; with no text anywhere the
   * candidate's keys are listed, which fails unless the candidate is an array.
   */
  function Extract(candidate: Json, fmt: FloatFormat): (r: Parse)
    ensures !r.Rejected? || r.reason == NoTextFound
    ensures r.Parsed? ==> !IsEmpty(r.text) || r.text.JStr?
    ensures r.Parsed? ==> exists k :: 0 <= k < |TextShapes|
                            && TryOn(candidate, fmt)(TextShapes[k]) == Found(r.text)
                            && forall m :: 0 <= m < k ==> TryOn(candidate, fmt)(TextShapes[m]).NotFound?
    ensures r == Rejected(NoTextFound) <==>
              IsArray(candidate) && forall k :: 0 <= k < |TextShapes| ==> TryOn(candidate, fmt)(TextShapes[k]).NotFound?
    ensures FirstShape(TextShapes, TryOn(candidate, fmt)).Found? ==>
              r == Parsed(FirstShape(TextShapes, TryOn(candidate, fmt)).value)
    ensures FirstShape(TextShapes, TryOn(candidate, fmt)).Raised? ==> r == Fatal
  {
    match FirstShape(TextShapes, TryOn(candidate, fmt))
    case Found(text) => FoundIsText(candidate, fmt); Parsed(text)
    case Raised => Fatal
    case NotFound => if IsArray(candidate) then Rejected(NoTextFound) else Fatal
  }

  /**
   * Shape `k` decides when every shape before it finds nothing: a text it finds is the
   * result, and a part it cannot trim makes the parse fail with a PHP error.
   */
  lemma ExtractAt(candidate: Json, fmt: FloatFormat, k: nat)
    requires k < |TextShapes| && !TryOn(candidate, fmt)(TextShapes[k]).NotFound?
    requires forall m :: 0 <= m < k ==> TryOn(candidate, fmt)(TextShapes[m]).NotFound?
    ensures TryOn(candidate, fmt)(TextShapes[k]).Found? ==>
              Extract(candidate, fmt) == Parsed(TryOn(candidate, fmt)(TextShapes[k]).value)
    ensures TryOn(candidate, fmt)(TextShapes[k]).Raised? ==> Extract(candidate, fmt) == Fatal
  {
    FirstShapeAt(TextShapes, TryOn(candidate, fmt), k);
  }

  /** Every shape that finds something finds a non-empty value or a string. */
  lemma FoundIsText(candidate: Json, fmt: FloatFormat)
    ensures forall shape :: TryOn(candidate, fmt)(shape).Found? ==>
              !IsEmpty(TryOn(candidate, fmt)(shape).value) || TryOn(candidate, fmt)(shape).value.JStr?
  {
  }


  /**
   * parseGeminiResponse: the guards on the response and on its first candidate, then the
   * eight shapes; when none holds text the candidate's keys are listed, which fails
   * unless the candidate is an array.
   */
  function ParseResponse(result: Json, fmt: FloatFormat): (r: Parse)
    ensures r.Rejected? && r.reason.ApiErrorInBody? <==> Isset(Field(result, "error"))
    ensures r.Parsed? ==> !Isset(Field(result, "error")) && CandidatesPresent(result)
                          && !Blocked(FirstCandidate(result)) && !TruncatedShape(FirstCandidate(result))
    ensures r == Rejected(NoCandidates) <==>
              !Isset(Field(result, "error")) && !CandidatesPresent(result)
    ensures r == Rejected(ContentBlocked) <==>
              !Isset(Field(result, "error")) && CandidatesPresent(result) && Blocked(FirstCandidate(result))
    ensures r == Rejected(TruncatedWithoutParts) <==>
              !Isset(Field(result, "error")) && CandidatesPresent(result)
              && !Blocked(FirstCandidate(result)) && TruncatedShape(FirstCandidate(result))
    ensures r.Parsed? ==> r == Extract(FirstCandidate(result), fmt)
  {
    var error := Field(result, "error");
    if Isset(error) then
      Rejected(ApiErrorInBody(Coalesce(Get(error, "message"), UnknownApiError)))
    else if !CandidatesPresent(result) then
      Rejected(NoCandidates)
    else
      var candidate := FirstCandidate(result);
      if Blocked(candidate) then Rejected(ContentBlocked)
      else if TruncatedShape(candidate) then Rejected(TruncatedWithoutParts)
      else Extract(candidate, fmt)
  }

  /** Shape 1 is tried first: content parts that join to a non-empty text decide. */
  lemma ContentPartsFirst(candidate: Json, fmt: FloatFormat)
    requires var parts := Get(Field(candidate, "content"), "parts");
             && Isset(parts) && IsArray(parts.value)
             && AllTrimmable(Values(parts.value), PieceOf(fmt)) && Pieces(Values(parts.value), PieceOf(fmt)) != []
    ensures var text := Join(Pieces(Values(Get(Field(candidate, "content"), "parts").value), PieceOf(fmt)));
            Extract(candidate, fmt) == Parsed(JStr(text)) && IsTrimmed(text)
  {
    var parts := Get(Field(candidate, "content"), "parts").value;
    var text := Join(Pieces(Values(parts), PieceOf(fmt)));
    CombinedTextIsTrimmed(parts, fmt);
    assert TryShape(ContentParts, candidate, fmt) == Found(JStr(text));
  }

  /**
   * A MAX_TOKENS candidate whose content still has parts is not refused: its joined
   * part text is returned, with no whitespace at either end.
   */
  lemma TruncatedAnswerStillUsed(result: Json, fmt: FloatFormat)
    requires !Isset(Field(result, "error")) && CandidatesPresent(result)
    requires Field(FirstCandidate(result), "finishReason") == Some(JStr("MAX_TOKENS"))
    requires var parts := Get(Field(FirstCandidate(result), "content"), "parts");
             && Isset(parts) && IsArray(parts.value)
             && AllTrimmable(Values(parts.value), PieceOf(fmt)) && Pieces(Values(parts.value), PieceOf(fmt)) != []
    ensures var text := Join(Pieces(Values(Get(Field(FirstCandidate(result), "content"), "parts").value), PieceOf(fmt)));
            ParseResponse(result, fmt) == Parsed(JStr(text)) && IsTrimmed(text)
  {
    var candidate := FirstCandidate(result);
    MaxTokensIsNotBlocking();
    assert !TruncatedShape(candidate);
    GuardsPassed(result, fmt);
    ContentPartsFirst(candidate, fmt);
  }

  /** MAX_TOKENS is not one of the safety reasons. */
  lemma MaxTokensIsNotBlocking()
    ensures !IsBlockingReason(JStr("MAX_TOKENS"))
  {
    var m := "MAX_TOKENS";
    assert |m| != |BlockingReasons[0]| && |m| != |BlockingReasons[2]|;
    assert m[0] != BlockingReasons[1][0];
  }

  /** A response that passes every guard is decided by the text shapes alone. */
  lemma GuardsPassed(result: Json, fmt: FloatFormat)
    requires !Isset(Field(result, "error")) && CandidatesPresent(result)
    requires !Blocked(FirstCandidate(result)) && !TruncatedShape(FirstCandidate(result))
    ensures ParseResponse(result, fmt) == Extract(FirstCandidate(result), fmt)
  {
  }

  /**
   * A candidate whose `content` is the empty string is accepted as a successful, empty
   * text: shape 7 checks only that the content is a string.
   */
  lemma EmptyStringContentAccepted(fmt: FloatFormat)
    ensures var candidate := JObj([("content", JStr(""))]);
            ParseResponse(JObj([("candidates", JArr([candidate]))]), fmt) == Parsed(JStr(""))
  {
    var candidate := JObj([("content", JStr(""))]);
    var result := JObj([("candidates", JArr([candidate]))]);
    assert |"candidates"| != |"error"| && |"content"| != |"finishReason"|;
    LookupSingle("candidates", JArr([candidate]), "error");
    LookupSingle("candidates", JArr([candidate]), "candidates");
    LookupSingle("content", JStr(""), "finishReason");
    assert Field(result, "error").None?;
    assert FirstCandidate(result) == candidate;
    assert Field(candidate, "finishReason").None?;
    GuardsPassed(result, fmt);
    EmptyContentExtracted(fmt);
  }

  lemma EmptyContentExtracted(fmt: FloatFormat)
    ensures Extract(JObj([("content", JStr(""))]), fmt) == Parsed(JStr(""))
  {
    var candidate := JObj([("content", JStr(""))]);
    assert Field(candidate, "content") == Some(JStr(""));
    forall m | 0 <= m < 6
      ensures TryOn(candidate, fmt)(TextShapes[m]).NotFound?
    {
    }
    FirstShapeAt(TextShapes, TryOn(candidate, fmt), 6);
  }



}
