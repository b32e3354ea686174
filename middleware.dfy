/**
 * The error-handling middleware (src/handlers/middleware.ts): whatever the
 * command handler throws is turned into at most one reply to the user, and
 * nothing propagates further.
 */
module Middleware {
  import opened Wrappers
  import opened Errors

  const FailedPageReply := "❌ Failed to process product page. Please try again later."
  const UnexpectedReply := "❌ An unexpected error occurred. Please try again later."

  /**
   * The `catch` branch: a `BotError` replies with its own user-facing text, any
   * other `Error` with a string `url` property gets the product-page reply, any
   * other `Error` the generic reply, and a thrown non-`Error` value no reply.
   */
  function ErrorReply(e: Thrown): (reply: Option<string>)
    ensures reply.None? <==> !IsErrorInstance(e)
    ensures e.BotError? ==> reply == Some(e.userFriendlyMessage)
    ensures !e.BotError? && IsErrorInstance(e) && HasStringUrl(e) ==> reply == Some(FailedPageReply)
    ensures !e.BotError? && IsErrorInstance(e) && !HasStringUrl(e) ==> reply == Some(UnexpectedReply)
  {
    if e.BotError? then Some(e.userFriendlyMessage)
    else if IsErrorInstance(e) then
      if HasStringUrl(e) then Some(FailedPageReply) else Some(UnexpectedReply)
    else None
  }

  /**
   * The middleware around one update: `thrown` is what `next()` threw, if
   * anything. The result is the reply sent; no error leaves the middleware.
   */
  function HandleUpdate(thrown: Option<Thrown>): (reply: Option<string>)
    ensures reply.Some? <==> thrown.Some? && IsErrorInstance(thrown.value)
    ensures thrown.Some? && thrown.value.BotError? ==> reply == Some(thrown.value.userFriendlyMessage)
    ensures thrown.Some? && !thrown.value.BotError? && reply.Some? ==>
      reply.value == (if HasStringUrl(thrown.value) then FailedPageReply else UnexpectedReply)
  {
    match thrown
    case None => None
    case Some(e) => ErrorReply(e)
  }

  /** Every `ScrapingError` is answered with the product-page reply. */
  lemma ScrapingErrorReply(message: string, url: string)
    ensures ErrorReply(ScrapingError(message, url)) == Some(FailedPageReply)
  {
  }
}
