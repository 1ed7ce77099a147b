/** The scraper's configuration values and the start-up validation of config.py. */
module Config {

  /** The configuration surface; environment reading and number parsing are not modelled,
      and the float setting is a real number. */
  datatype Settings = Settings(
    baseUrl: string,
    requestTimeoutSeconds: int,
    maxConcurrentRequests: int,
    rateLimitDelaySeconds: real,
    userAgent: string,
    outputCsv: string,
    outputJson: string)

  /** The values used when no environment variable overrides them. */
  const Defaults: Settings := Settings(
    "https://quotes.toscrape.com/",
    15,
    10,
    0.5,
    "BetternshipQuotesScraper/1.0 (+https://quotes.toscrape.com)",
    "quotes.csv",
    "quotes.json")

  const MissingBaseUrl := "BASE_URL must be set"
  const NonPositiveTimeout := "REQUEST_TIMEOUT_SECONDS must be positive"
  const NegativeDelay := "RATE_LIMIT_DELAY_SECONDS cannot be negative"

  /** Outcome of validation: the `ValueError` raised carries the message of the first failed check. */
  datatype Validation = Valid | Invalid(message: string)

  /** The three checks of `Config.validate`, in source order; the first failure is reported. */
  function Validate(c: Settings): (r: Validation)
    ensures r == Valid <==> c.baseUrl != "" && c.requestTimeoutSeconds > 0 && c.rateLimitDelaySeconds >= 0.0
    ensures c.baseUrl == "" ==> r == Invalid(MissingBaseUrl)
    ensures c.baseUrl != "" && c.requestTimeoutSeconds <= 0 ==> r == Invalid(NonPositiveTimeout)
    ensures c.baseUrl != "" && c.requestTimeoutSeconds > 0 && c.rateLimitDelaySeconds < 0.0 ==> r == Invalid(NegativeDelay)
  {
    if c.baseUrl == "" then Invalid(MissingBaseUrl)
    else if c.requestTimeoutSeconds <= 0 then Invalid(NonPositiveTimeout)
    else if c.rateLimitDelaySeconds < 0.0 then Invalid(NegativeDelay)
    else Valid
  }

  /** The shipped defaults pass validation. */
  lemma DefaultsAreValid()
    ensures Validate(Defaults) == Valid
  {
  }

  /** The boundaries: a zero timeout is rejected while a zero delay is accepted. */
  lemma ValidateBoundaries(c: Settings)
    requires c.baseUrl != ""
    ensures Validate(c.(requestTimeoutSeconds := 0)) == Invalid(NonPositiveTimeout)
    ensures c.requestTimeoutSeconds > 0 ==> Validate(c.(rateLimitDelaySeconds := 0.0)) == Valid
  {
  }

  /** The concurrency bound, user agent and output paths take no part in validation. */
  lemma ValidateIgnoresUncheckedSettings(c: Settings, maxConcurrent: int, agent: string, csv: string, json: string)
    ensures Validate(c.(maxConcurrentRequests := maxConcurrent, userAgent := agent, outputCsv := csv, outputJson := json))
            == Validate(c)
  {
  }
}
