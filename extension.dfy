/**
 * SummaryExtension: the hook that puts the Summary button in front of every entry's
 * content, and the configuration form handler that stores the user's settings.
 * The framework's URL builder, the request parameters and PHP's string-to-number
 * casts are inputs.
 */
module Extension {
  import opened Wrappers
  import opened PhpStrings

  // ---------------------------------------------------------------------------
  // addSummaryButton

  /** Minz_Url::display for a controller, an action and an `id` parameter. */
  type UrlBuilder = (string, string, string) -> string

  const WrapOpen := "<div class=\"gemini-summary-wrap\">"
  const ButtonOpen := "<button data-request=\""
  const ButtonClose := "\" class=\"gemini-summary-btn\">Summary</button>"
  const PanelAndClose := "<div class=\"gemini-summary-content\"></div></div>"

  /** The URL the button posts to: controller Summary, action summarize, the entry's id. */
  function SummaryUrl(display: UrlBuilder, id: string): string {
    display("Summary", "summarize", id)
  }

  /** The markup placed in front of the content. */
  function ButtonMarkup(url: string): (r: string)
    ensures WrapOpen + ButtonOpen + url <= r
  {
    WrapOpen + ButtonOpen + url + ButtonClose + PanelAndClose
  }

  /** The content after the hook: the markup, then the old content unchanged. */
  function Wrapped(url: string, content: string): string {
    ButtonMarkup(url) + content
  }

  /** Recover the original content from a wrapped one, if it carries that button. */
  function Unwrap(url: string, s: string): (r: Option<string>)
    ensures r.Some? ==> Wrapped(url, r.value) == s
  {
    var m := ButtonMarkup(url);
    if m <= s then Some(s[|m|..]) else None
  }

  /** The old content is a suffix of the new one and can be read back. */
  lemma UnwrapWrapped(url: string, content: string)
    ensures Unwrap(url, Wrapped(url, content)) == Some(content)
    ensures content == Wrapped(url, content)[|Wrapped(url, content)| - |content|..]
  {
    var m := ButtonMarkup(url);
    assert Wrapped(url, content)[|m|..] == content;
  }

  /** Distinct contents stay distinct once wrapped with the same button. */
  lemma WrappedInjective(url: string, c1: string, c2: string)
    requires Wrapped(url, c1) == Wrapped(url, c2)
    ensures c1 == c2
  {
    UnwrapWrapped(url, c1);
    UnwrapWrapped(url, c2);
  }

  /** The entry as the hook sees it. */
  class Entry {
    var id: string
    var content: string

    constructor (id: string, content: string)
      ensures this.id == id && this.content == content
    {
      this.id := id;
      this.content := content;
    }
  }

  /** Rewrite the entry's content in place; its id is left alone. */
  method AddSummaryButton(entry: Entry, display: UrlBuilder)
    modifies entry
    ensures entry.content == Wrapped(SummaryUrl(display, entry.id), old(entry.content))
    ensures entry.id == old(entry.id)
  {
    var url := SummaryUrl(display, entry.id);
    entry.content := ButtonMarkup(url) + entry.content;
  }

  // ---------------------------------------------------------------------------
  // handleConfigureAction

  /** The request parameters of the form post. */
  type Params = map<string, string>

  /** PHP's `(int)` and `(float)` conversions of a submitted string. */
  datatype Casts = Casts(toInt: string -> int, toFloat: string -> real)

  const DefaultFormModel := "gemini-2.0-flash-latest"
  const CustomChoice := "custom"
  const DefaultFormMaxTokens := 1024
  const DefaultFormTemperature := 0.7

  /** Minz_Request::param: the submitted value, or the default when it is absent. */
  function Param(params: Params, name: string, default: string): (r: string)
    ensures name !in params ==> r == default
  {
    if name in params then params[name] else default
  }

  /** The model id written to the user configuration. */
  function ChosenModel(params: Params): (r: string)
    ensures var custom := Param(params, "gemini_model_custom", "");
      Param(params, "gemini_model", DefaultFormModel) == CustomChoice && !IsEmptyString(custom)
      ==> r == Trim(custom) && IsTrimmed(r) && exists a, b :: 0 <= a <= b <= |custom| && r == custom[a..b]
    ensures r != Param(params, "gemini_model", DefaultFormModel) ==>
      Param(params, "gemini_model", DefaultFormModel) == CustomChoice
  {
    var selected := Param(params, "gemini_model", DefaultFormModel);
    var custom := Param(params, "gemini_model_custom", "");
    TrimIsTrimmedSlice(custom);
    if selected == CustomChoice && !IsEmptyString(custom) then Trim(custom) else selected
  }

  /** A custom id made only of whitespace is stored as the empty string. */
  lemma BlankCustomModelStoresEmpty(params: Params)
    requires Param(params, "gemini_model", DefaultFormModel) == CustomChoice
    requires "gemini_model_custom" in params && !IsEmptyString(params["gemini_model_custom"])
    requires forall i :: 0 <= i < |params["gemini_model_custom"]| ==> IsTrimChar(params["gemini_model_custom"][i])
    ensures ChosenModel(params) == ""
  {
    TrimBlank(params["gemini_model_custom"]);
  }

  /** Choosing "custom" without a custom id (or with "0") stores the literal "custom". */
  lemma EmptyCustomModelStoresChoice(params: Params)
    requires Param(params, "gemini_model", DefaultFormModel) == CustomChoice
    requires IsEmptyString(Param(params, "gemini_model_custom", ""))
    ensures ChosenModel(params) == CustomChoice
  {
  }

  /** Without a selection the form default is stored, whatever the custom field says. */
  lemma MissingSelectionStoresDefault(params: Params)
    requires "gemini_model" !in params
    ensures ChosenModel(params) == DefaultFormModel
  {
  }

  /** What the form writes, before the framework persists it. */
  datatype FormValues = FormValues(
    model: string,
    apiKey: string,
    generalPrompt: string,
    youtubePrompt: string,
    maxTokens: int,
    temperature: real)

  /**
   * The values written on a POST. The numbers are the plain casts of the submitted
   * strings (the defaults when absent); nothing here applies the GeminiConfig bounds.
   */
  function FormValuesOf(params: Params, casts: Casts): (v: FormValues)
    ensures v.model == ChosenModel(params)
    ensures "gemini_max_tokens" in params ==> v.maxTokens == casts.toInt(params["gemini_max_tokens"])
    ensures "gemini_max_tokens" !in params ==> v.maxTokens == DefaultFormMaxTokens
    ensures "gemini_temperature" in params ==> v.temperature == casts.toFloat(params["gemini_temperature"])
    ensures "gemini_temperature" !in params ==> v.temperature == DefaultFormTemperature
    ensures "gemini_api_key" !in params ==> v.apiKey == ""
  {
    FormValues(
      ChosenModel(params),
      Param(params, "gemini_api_key", ""),
      Param(params, "gemini_general_prompt", ""),
      Param(params, "gemini_youtube_prompt", ""),
      if "gemini_max_tokens" in params then casts.toInt(params["gemini_max_tokens"]) else DefaultFormMaxTokens,
      if "gemini_temperature" in params then casts.toFloat(params["gemini_temperature"]) else DefaultFormTemperature)
  }

  /** The user configuration object; `saves` counts calls to save(). */
  class UserConf {
    var geminiModel: string
    var geminiApiKey: string
    var geminiGeneralPrompt: string
    var geminiYoutubePrompt: string
    var geminiMaxTokens: int
    var geminiTemperature: real
    var saves: nat

    constructor (initial: FormValues)
      ensures Values() == initial && saves == 0
    {
      geminiModel := initial.model;
      geminiApiKey := initial.apiKey;
      geminiGeneralPrompt := initial.generalPrompt;
      geminiYoutubePrompt := initial.youtubePrompt;
      geminiMaxTokens := initial.maxTokens;
      geminiTemperature := initial.temperature;
      saves := 0;
    }

    function Values(): FormValues
      reads this
    {
      FormValues(geminiModel, geminiApiKey, geminiGeneralPrompt, geminiYoutubePrompt,
                 geminiMaxTokens, geminiTemperature)
    }

    /** On a POST, assign every field from the form and save once; otherwise do nothing. */
    method HandleConfigure(isPost: bool, params: Params, casts: Casts)
      modifies this
      ensures isPost ==> Values() == FormValuesOf(params, casts) && saves == old(saves) + 1
      ensures !isPost ==> Values() == old(Values()) && saves == old(saves)
    {
      if isPost {
        var selected := Param(params, "gemini_model", DefaultFormModel);
        var custom := Param(params, "gemini_model_custom", "");
        if selected == CustomChoice && !IsEmptyString(custom) {
          geminiModel := Trim(custom);
        } else {
          geminiModel := selected;
        }
        geminiApiKey := Param(params, "gemini_api_key", "");
        geminiGeneralPrompt := Param(params, "gemini_general_prompt", "");
        geminiYoutubePrompt := Param(params, "gemini_youtube_prompt", "");
        geminiMaxTokens := if "gemini_max_tokens" in params then casts.toInt(params["gemini_max_tokens"])
                           else DefaultFormMaxTokens;
        geminiTemperature := if "gemini_temperature" in params then casts.toFloat(params["gemini_temperature"])
                             else DefaultFormTemperature;
        saves := saves + 1;
      }
    }
  }
}
