/**
 * The values a JavaScript handler can throw, as far as the bot inspects them:
 * the two error classes the bot defines (`BotError` in
 * src/handlers/middleware.ts, `ScrapingError` in src/scrapers/tokopedia.ts),
 * any other `Error` (from the database, the Telegram client or `fetch`), and
 * a thrown value that is not an `Error` at all.
 */
module Errors {
  import opened Wrappers

  datatype Thrown =
    | BotError(message: string, userFriendlyMessage: string)
    | ScrapingError(message: string, url: string)
      /** Any other `Error`; `urlProp` is its `url` property when that is a string. */
    | PlainError(message: string, urlProp: Option<string>)
      /** A thrown non-`Error` value, with what `String(value)` renders. */
    | NonError(rendered: string)

  /** `error instanceof Error`. */
  predicate IsErrorInstance(e: Thrown) {
    !e.NonError?
  }

  /** `'url' in error && typeof error.url === 'string'`. */
  predicate HasStringUrl(e: Thrown) {
    e.ScrapingError? || (e.PlainError? && e.urlProp.Some?)
  }

  /**
   * `error instanceof Error ? error.message : String(error)`: the message of
   * any of the bot's errors or of another `Error`, and the rendering of
   * anything else.
   */
  function CaughtMessage(e: Thrown): (m: string)
    ensures e.BotError? || e.ScrapingError? || e.PlainError? ==> m == e.message
    ensures e.NonError? ==> m == e.rendered
  {
    if IsErrorInstance(e) then e.message else e.rendered
  }
}
