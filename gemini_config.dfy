/**
 * Bounds of the generation parameters and the two clamping helpers
 * (GeminiConfig::clampMaxTokens / clampTemperature).
 */
module GeminiConfig {

  const MaxTokensMin: int := 100
  const MaxTokensMax: int := 4096
  const TemperatureMin: real := 0.0
  const TemperatureMax: real := 2.0

  /** Bring a token budget into [100, 4096]: below goes to 100, above to 4096. */
  function ClampMaxTokens(value: int): (r: int)
    ensures MaxTokensMin <= r <= MaxTokensMax
    ensures MaxTokensMin <= value <= MaxTokensMax ==> r == value
    ensures value < MaxTokensMin ==> r == MaxTokensMin
    ensures value > MaxTokensMax ==> r == MaxTokensMax
  {
    if value < MaxTokensMin then MaxTokensMin
    else if value > MaxTokensMax then MaxTokensMax
    else value
  }

  /** Clamping twice is clamping once. */
  lemma ClampMaxTokensIdempotent(value: int)
    ensures ClampMaxTokens(ClampMaxTokens(value)) == ClampMaxTokens(value)
  {
  }

  /** A larger request never gets a smaller budget. */
  lemma ClampMaxTokensMonotone(a: int, b: int)
    requires a <= b
    ensures ClampMaxTokens(a) <= ClampMaxTokens(b)
  {
  }

  /** Bring a temperature into [0.0, 2.0]; values inside the range are kept. */
  function ClampTemperature(value: real): (r: real)
    ensures TemperatureMin <= r <= TemperatureMax
    ensures TemperatureMin <= value <= TemperatureMax ==> r == value
    ensures value < TemperatureMin ==> r == TemperatureMin
    ensures value > TemperatureMax ==> r == TemperatureMax
  {
    if value < TemperatureMin then TemperatureMin
    else if value > TemperatureMax then TemperatureMax
    else value
  }
}
