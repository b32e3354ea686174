# thriftmind price tracker — a Dafny model

thriftmind is a Telegram bot, running as a Cloudflare worker, that tracks
Tokopedia product prices. Users register items with `/add <url> [target]`.
A scheduled run then re-scrapes the items that were not checked today, oldest
first, at most ten per run. For each item it updates the stored price and
check time, appends a row to the price-history ledger, and sends a price alert
once the target price is reached. A failing item gets its error count raised
and its last error recorded, and the run goes on with the next item.

This project models that core in Dafny and proves properties of it.

| file | module | models |
|---|---|---|
| `wrappers.dfy` | `Wrappers` | `Option` and `Result` |
| `text.dfy` | `Text` | digits, decimal rendering of integers, `includes`, ASCII case folding |
| `errors.dfy` | `Errors` | thrown values: `BotError`, `ScrapingError`, any other `Error`, non-`Error` values; the `error instanceof Error ? error.message : String(error)` rule |
| `tokopedia.dfy` | `Tokopedia` | `src/scrapers/tokopedia.ts`: the URL regex, the price-text normalisation, the checks and error wrapping of `scrapeTokopedia` |
| `middleware.dfy` | `Middleware` | the `catch` of `setupBotMiddleware` in `src/handlers/middleware.ts` |
| `idgenerator.dfy` | `IdGenerator` | the `generateShortId` loop in `src/utils/idGenerator.ts` |
| `schema.dfy` | `Schema` | the rows of `items` and `price_history` from `src/db/schema.ts`, and the `Database` object the handlers update in place |
| `items.dfy` | `Items` | `truncate`, `/add` and `/myitems` in `src/handlers/items.ts` |
| `scheduled.dfy` | `Scheduled` | `scheduledHandler` in `src/handlers/scheduled.ts` |

Scope of the model:

- The world outside the worker is a parameter, never computed. That covers:
  - what `fetch` and the HTML parser produce (`FetchResult`, `PageFields`);
  - the clock;
  - which database or Telegram statement throws, and with what (a map from statement to thrown value);
  - the draws of `Math.random`.
- The scheduled handler and `/add` are specified by pure functions of the
  state before and of those answers (`ScheduledRun`, `AddCommand`).
- The imperative code is written as methods on a `Database` object. The methods
  are proved equal to those functions:
  - `Scheduled.ScheduledHandler`, `Scheduled.RunItems`, `Scheduled.CheckItem`
    and `Scheduled.TryItem`;
  - `Items.HandleAddCommand` and `Items.AddScraped`.
- The loop in `Scheduled.RunItems` is generic in the scraper it calls.
  `Scheduled.ScheduledHandler` gives it the Tokopedia scraper. So every run
  lemma holds for any scraper, and `Scheduled.ScheduledFailedItem` restates
  the failure case for the real one.

Behaviours of the code as written that the model keeps:

- **Only price alerts.**
  - The scheduled run sends no price-drop notice.
  - Its "lowest price" branch (`src/handlers/scheduled.ts:61`) cannot fire.
    The minimum is taken after the new price is in the ledger, and the fold
    is seeded with that price, so the price is never below it.
  - `Scheduled.DecisionIsTargetOnly` proves this.
- **`lastError` survives a success.** The success update
  (`src/handlers/scheduled.ts:38-42`) sets only the price, the check time and
  the error count. `Scheduled.ProcessSuccess` keeps the old last error.
- **Late failures land in the item's `catch`.**
  - A throwing `sendMessage` lands in the item's `catch`.
  - So do a failing ledger insert and a failing ledger read. The item then
    keeps its new price and check time, and its error count, just reset to
    0, becomes 1 (`Scheduled.ProcessLateFailure`).
- **Item before ledger.** The item row is updated before the ledger insert.
- **A `catch` that can itself throw.** The failure update inside the `catch`
  can throw. That error reaches the outer `catch` and is rethrown, which ends
  the run (`Scheduled.RunAbortsOn`).

## Model

| member | source | states |
|---|---|---|
| `Text.NatToStringRoundTrip` | src/handlers/items.ts:43 | the decimal rendering of a number (as in `item_${Date.now()}`) reads back as the same number |
| `Text.NatToStringInjective` | src/handlers/items.ts:43 | two different numbers never render the same |
| `Text.ContainsAt` | src/scrapers/tokopedia.ts:62 | `includes` holds exactly when the text occurs at some position |
| `Tokopedia.IsValidTokopediaUrl` | src/scrapers/tokopedia.ts:29-31 | an accepted URL starts with `http` in any letter case and has at least 24 characters (scheme, host, a segment, `/` and one more character) |
| `Tokopedia.ValidUrlHasParts` | src/scrapers/tokopedia.ts:21-31 | an accepted URL is, in any letter case, `http://` or `https://`, an optional `www.`, `tokopedia.com/`, a non-empty segment without `/`, a `/`, then at least one character that is not `/`, then anything |
| `Tokopedia.PartsMakeValidUrl` | src/scrapers/tokopedia.ts:21-31 | conversely, every URL built that way is accepted |
| `Tokopedia.AcceptedUrlAnySuffix` | src/scrapers/tokopedia.ts:21 | the pattern is anchored only at the start: any text appended to an accepted URL keeps it accepted |
| `Tokopedia.OtherHostRejected` | src/scrapers/tokopedia.ts:21 | after the scheme, a URL going on with neither `tokopedia.com/` nor `www.tokopedia.com/` is rejected |
| `Tokopedia.SubdomainRejected` | src/scrapers/tokopedia.ts:21 | after the scheme, any non-empty host label without `.` other than `www` (any case) in front of `.tokopedia.com/` makes the URL invalid, whatever follows |
| `Tokopedia.LabelNotHost` | src/scrapers/tokopedia.ts:21 | such a label followed by `.tokopedia.com/` starts neither `tokopedia.com/` nor `www.tokopedia.com/` in any letter case |
| `Tokopedia.SubdomainExample` | src/scrapers/tokopedia.ts:21 | `https://tk.tokopedia.com/shop/item` is rejected |
| `Tokopedia.SchemeAccepted` | src/scrapers/tokopedia.ts:21 | either scheme, in any letter case, is consumed whole |
| `Tokopedia.HostAccepted` | src/scrapers/tokopedia.ts:21 | the optional `www.` and the host, in any letter case, are consumed whole |
| `Tokopedia.PathAccepted` | src/scrapers/tokopedia.ts:21 | a slash-free segment, `/` and a rest not starting with `/` satisfy the path part |
| `Tokopedia.KeepOneChar` | src/scrapers/tokopedia.ts:74 | the filter keeps a single character exactly when it is a digit or a comma |
| `Tokopedia.KeepDigitsAndCommasAppend` | src/scrapers/tokopedia.ts:74 | the filter works character by character: filtering a concatenation concatenates the filtered halves, so with `KeepOneChar` the result is the digits and commas of the text, in order |
| `Tokopedia.KeepDigitsAndCommas` | src/scrapers/tokopedia.ts:74 | removing everything but digits and commas leaves only those and never lengthens the text |
| `Tokopedia.ReplaceFirstComma` | src/scrapers/tokopedia.ts:74 | the length is kept, a character changes only from `,` to `.`, and at most one character changes |
| `Tokopedia.ReplaceAtFirstComma` | src/scrapers/tokopedia.ts:74 | when the first comma is at `i`, the result is the text with exactly that comma replaced by `.`, later commas kept |
| `Tokopedia.NoCommaUnchanged` | src/scrapers/tokopedia.ts:74 | a text without a comma comes back unchanged |
| `Tokopedia.ReplaceFirstCommaShape` | src/scrapers/tokopedia.ts:74 | replacing the first comma keeps the length, introduces at most one `.`, and everything before that `.` is a digit |
| `Tokopedia.NormalizePriceText` | src/scrapers/tokopedia.ts:74 | the normalised text is never longer than the price text and holds only digits, commas and `.` |
| `Tokopedia.NormalizedPriceShape` | src/scrapers/tokopedia.ts:73-74 | the normalised price text holds only digits, commas and at most one `.`, with only digits before it |
| `Tokopedia.NormalizeKeepsDigits` | src/scrapers/tokopedia.ts:73-74 | normalisation keeps every digit of the price text, in order |
| `Tokopedia.PriceParsesIff` | src/scrapers/tokopedia.ts:73-78 | a price is read exactly when the filtered text is non-empty and starts with a digit, or with a comma followed by a digit |
| `Tokopedia.PriceWithoutCommaIsWhole` | src/scrapers/tokopedia.ts:73-74 | price text without a comma but with digits reads as the whole number those digits spell, whatever separators surround them |
| `Tokopedia.ParseDecimal` | src/scrapers/tokopedia.ts:74 | a number read from digits, commas and `.` is never negative |
| `Tokopedia.ParsePriceText` | src/scrapers/tokopedia.ts:73-78 | a scraped price is never negative |
| `Tokopedia.WholeBeforePoint` | src/scrapers/tokopedia.ts:74 | digits followed by a `.` and nothing else read as the digits' value |
| `Tokopedia.FractionAfterPoint` | src/scrapers/tokopedia.ts:74 | digits, `.` and a non-empty digit run read as the whole part plus the run over its power of ten |
| `Tokopedia.DecimalWithPoint` | src/scrapers/tokopedia.ts:74 | both together: a digit run, `.` and a digit run, not both empty, read as the first value plus the second as a decimal fraction |
| `Tokopedia.CommaPriceReads` | src/scrapers/tokopedia.ts:73-78 | a price text whose digits and commas are a digit run, one comma and a digit run (`Rp1.250,50`) reads as the first run plus the second as a decimal fraction |
| `Tokopedia.ParseDigitRun` | src/scrapers/tokopedia.ts:74 | a run of digits alone reads as the number it spells |
| `Tokopedia.FetchAndParse` | src/scrapers/tokopedia.ts:44-86 | every `ScrapingError` thrown after the fetch carries the requested URL |
| `Tokopedia.ScrapeTokopedia` | src/scrapers/tokopedia.ts:39-91 | every failure is a `ScrapingError` naming the URL; a result has a valid URL, currency `IDR`, is available, names the URL, has a non-empty title and the price read from the price text |
| `Tokopedia.InvalidUrlFailsBeforeFetch` | src/scrapers/tokopedia.ts:40-42 | an invalid URL fails with `Invalid Tokopedia URL format` whatever the fetch and the page would have been |
| `Tokopedia.ScrapeSucceedsIff` | src/scrapers/tokopedia.ts:39-86 | the scrape succeeds exactly when the URL is valid, the fetch resolved with an ok response containing `tokopedia`, the title is non-empty and the price parses; the product is then exactly those fields |
| `Tokopedia.FetchRejectionWrapped` | src/scrapers/tokopedia.ts:87-89 | a fetch that rejects is rewrapped as a `ScrapingError` with the error's message, or `Unknown scraping error` for a non-`Error`, and the URL |
| `Middleware.ErrorReply` | src/handlers/middleware.ts:18-29 | a `BotError` gets its user-facing text; another `Error` with a string `url` gets the product-page reply; any other `Error` gets the generic reply; a non-`Error` value gets no reply, and only it |
| `Middleware.HandleUpdate` | src/handlers/middleware.ts:15-31 | no error leaves the middleware, and a reply goes out exactly when an `Error` instance was thrown: a `BotError` gets its own user-facing text, any other `Error` the product-page reply when it has a string `url` and the generic reply otherwise |
| `Middleware.ScrapingErrorReply` | src/handlers/middleware.ts:21-24 | every scraping error gets the product-page reply |
| `IdGenerator.DrawIndex` | src/utils/idGenerator.ts:10 | a draw in [0, 1) picks an index inside the 36-character alphabet |
| `IdGenerator.CharAt` | src/utils/idGenerator.ts:10 | `charAt` gives at most one character; it is non-empty exactly when the index is in range, and then it is the character at that index |
| `IdGenerator.GenerateShortId` | src/utils/idGenerator.ts:6-13 | with `length` defaulting to 6, the id is never longer than the requested length (empty for 0 or less), uses only `A-Z0-9`, and when every draw lies in [0, 1) has exactly that length, its j-th character picked by the j-th draw |
| `Schema.RecordsOfSelects` | src/handlers/scheduled.ts:54 | the ledger query returns exactly the item's rows, never more rows than the ledger holds |
| `Items.Truncate` | src/handlers/items.ts:11-13 | a text within the limit comes back unchanged; a longer one becomes its first `maxLength` characters followed by `...`, `maxLength + 3` long |
| `Items.TruncateIdempotent` | src/handlers/items.ts:11-13 | truncating twice gives the same as truncating once |
| `Items.SplitOnSpace` | src/handlers/items.ts:22 | `split(' ')` yields at least one part, none containing a space |
| `Items.SplitJoinRoundTrip` | src/handlers/items.ts:22 | joining the parts with single spaces gives back the text |
| `Items.NonEmpty` | src/handlers/items.ts:22 | `filter(Boolean)` keeps only non-empty parts, each one of the originals |
| `Items.Tokens` | src/handlers/items.ts:22 | every word is non-empty and contains no space |
| `Items.TokensCoverText` | src/handlers/items.ts:22 | the words, in order, are the text with its spaces removed |
| `Items.NonEmptyAppend` | src/handlers/items.ts:22 | `filter(Boolean)` of a concatenation is the concatenation of the filtered halves: every non-empty part is kept, in order |
| `Items.NonEmptySingle` | src/handlers/items.ts:22 | a single part is kept exactly when it is non-empty |
| `Items.LeadingSpacesDropped` | src/handlers/items.ts:22 | leading spaces change nothing in the words |
| `Items.SplitWord` | src/handlers/items.ts:22 | a space-free word in front of a text is glued to that text's first part |
| `Items.WordThenRest` | src/handlers/items.ts:22 | a non-empty space-free word ended by a space or the end of the text is the first word, followed by the words of the rest |
| `Items.FirstToken` | src/handlers/items.ts:22 | after any leading spaces, that first word is the URL `/add` takes |
| `Items.NewItemIdInjective` | src/handlers/items.ts:43 | item ids made at different milliseconds differ |
| `Items.HandleAddCommand` | src/handlers/items.ts:18-69 | the handler leaves the database, the reply and the thrown error as the `/add` specification function says, and keeps the database consistent |
| `Items.AddScraped` | src/handlers/items.ts:40-68 | after the checks, the inserts and the reply follow the scrape as specified, keeping the database consistent |
| `Items.AddCommand` | src/handlers/items.ts:18-69 | `/add` never changes an existing row; only a registered user's command changes the tables; no ledger row is written without its item row; a reply follows both inserts |
| `Items.AddChecked` | src/handlers/items.ts:40-68 | after the checks: existing rows are never changed, a failed scrape changes nothing and replies nothing, no ledger row without its item row, a reply only after both inserts |
| `Items.AddChecksInOrder` | src/handlers/items.ts:19-37 | a missing user id, then a missing URL, then an invalid URL, then an unregistered user each end `/add` with their own `BotError` and no change |
| `Items.AddChecksPrecedeScrape` | src/handlers/items.ts:19-40 | when no database statement throws a `BotError`, a `/add` that fails with a `BotError` has the same outcome whatever the scrape would have met: the checks run before any fetch |
| `Items.AddCheckedNeverBotError` | src/handlers/items.ts:40-68 | once the checks have passed, `/add` throws a `BotError` only if a database statement does |
| `Items.AddSuccess` | src/handlers/items.ts:40-68 | a successful `/add` came from a registered user with a valid URL, inserts one fresh item for that user and URL with error count 0 and no last error, appends one ledger row with the same id and price, and replies with the price and the target only when it is truthy |
| `Items.AddCheckedSuccess` | src/handlers/items.ts:42-66 | the inserted item and ledger row are exactly the scraped product's, and the reply is the truncated title, the price and the truthy target |
| `Items.AddKeepsConsistent` | src/handlers/items.ts:42-60 | `/add` keeps every row keyed by its id and every ledger row pointing at an item, adds at most the new id, and only appends at most one ledger row |
| `Items.AddCheckedKeepsConsistent` | src/handlers/items.ts:42-60 | the same for the part after the checks |
| `Items.InsertKeepsConsistent` | src/handlers/items.ts:44-60 | inserting a new item and at most its ledger row keeps the database consistent |
| `Items.AddFailureAnswered` | src/handlers/items.ts:18-69 | provided the database and Telegram throw `Error`s, every error `/add` throws gets a reply from the middleware, and a scraping failure gets the product-page reply |
| `Items.AddCheckedThrowsErrors` | src/handlers/items.ts:40-68 | what `/add` throws after its checks is the scrape's error, a failing statement's error, or the duplicate-key error |
| `Items.EntryFor` | src/handlers/items.ts:87-92 | a listing entry shows the target exactly when it is truthy, and a title of at most 53 characters |
| `Items.HandleMyItemsCommand` | src/handlers/items.ts:74-96 | with the query result listing exactly the user's rows of `items`, once each: a missing user id throws; the "no items yet" reply comes exactly when the user has no items; otherwise one entry per listed item in query order, every listed item is the user's, and every item of the user has an entry |
| `Scheduled.StartOfDay` | src/handlers/scheduled.ts:16-17 | the start of the day is a whole number of days since the epoch, at most `now` and less than a day before it |
| `Scheduled.AllDueOldestFirst` | src/handlers/scheduled.ts:18-22 | the due items can always be listed once each, oldest check first |
| `Scheduled.DueBatchExists` | src/handlers/scheduled.ts:9-23 | a selection always exists: at most 10 current rows, all due, distinct, oldest first, and any due item left out is no older than the last one taken, with the batch full |
| `Scheduled.IsDueBatch` | src/handlers/scheduled.ts:18-23 | a batch the query may return that is not full holds every due item, so an empty batch means nothing is due |
| `Scheduled.SelectionIgnoresErrorState` | src/handlers/scheduled.ts:21-23 | rows differing only outside `lastChecked` (error count, last error, prices) are selected the same |
| `Scheduled.MinPrice` | src/handlers/scheduled.ts:56 | the reduce seeded with the new price is at most that price and every ledger price, and is one of them |
| `Scheduled.DecisionIsTargetOnly` | src/handlers/scheduled.ts:54-63 | with that minimum a message is chosen exactly when the target is truthy and reached; it is always a price alert for the owner at the new price, and a target of 0 never alerts |
| `Scheduled.Decide` | src/handlers/scheduled.ts:58-63 | a message goes to the item's owner at the new price; it is a price alert exactly when the target is truthy and reached, and no message is chosen exactly when it is not and the price is not below the minimum |
| `Scheduled.Notify` | src/handlers/scheduled.ts:54-63 | the message is exactly the price alert, or nothing |
| `Scheduled.MarkChecked` | src/handlers/scheduled.ts:36-43 | the success update touches only the item's row and keeps the set of rows |
| `Scheduled.MarkFailed` | src/handlers/scheduled.ts:69-75 | the failure update touches only the item's row and keeps the set of rows |
| `Scheduled.TryProcess` | src/handlers/scheduled.ts:31-66 | the `try` block changes only its own row, appends nothing or the one row `(id, price, now)`, and sends only price alerts |
| `Scheduled.ProcessItem` | src/handlers/scheduled.ts:31-76 | the same for the `try` block with its `catch` |
| `Scheduled.ProcessSuccess` | src/handlers/scheduled.ts:36-66 | a successful iteration sets the price, the check time and error count 0, keeps everything else on the row (last error included), appends exactly `(id, price, now)`, and sends a message exactly when the target is truthy and reached |
| `Scheduled.ProcessScrapeFailure` | src/handlers/scheduled.ts:67-75 | a failed scrape raises the error count by exactly one and records the caught message; price, check time and ledger are unchanged and nothing is sent |
| `Scheduled.ProcessLateFailure` | src/handlers/scheduled.ts:36-75 | a failure after the success update keeps the new price and check time and leaves the error count at 1 with the caught message |
| `Scheduled.TryShape` | src/handlers/scheduled.ts:31-66 | the `try` block marks the row checked once the update runs, and what it sends and throws depends only on the item, the scrape and the failing statements |
| `Scheduled.TryLocal` | src/handlers/scheduled.ts:31-66 | the `try` block's effect on its own row, its message and its error do not depend on other rows or on the ledger |
| `Scheduled.ProcessLocal` | src/handlers/scheduled.ts:31-76 | the same for the whole iteration |
| `Scheduled.ProcessKeepsConsistent` | src/handlers/scheduled.ts:36-75 | an iteration keeps every row keyed by its id and every ledger row pointing at an item |
| `Scheduled.RunBatch` | src/handlers/scheduled.ts:30-77 | the loop never adds or removes items |
| `Scheduled.NothingDueNothingDone` | src/handlers/scheduled.ts:25-27 | an empty selection changes nothing and sends nothing |
| `Scheduled.RunTouchesOnlyBatch` | src/handlers/scheduled.ts:30-77 | items outside the batch are unchanged |
| `Scheduled.RunAppendsOnly` | src/handlers/scheduled.ts:46-66 | existing ledger rows are never changed, every new row belongs to a batch item, and no more messages go out than the batch has items |
| `Scheduled.RunSendsPrefixAlone` | src/handlers/scheduled.ts:30-81 | at most one message per item, aborted runs included: the messages of any run are those of a prefix of the batch, each item processed alone on the initial state, in selection order |
| `Scheduled.PrefixOfTail` | src/handlers/scheduled.ts:30 | the first `j + 1` items of a batch are its head and then the first `j` of its tail, none sharing the head's id |
| `Scheduled.RunKeepsConsistent` | src/handlers/scheduled.ts:30-77 | the run keeps the database consistent |
| `Scheduled.RunCompletes` | src/handlers/scheduled.ts:30-77 | when no failure update throws, the run processes every item and rethrows nothing, whatever else failed |
| `Scheduled.RunRowsAsAlone` | src/handlers/scheduled.ts:30-77 | in a completed run every item ends as if it had been processed alone: earlier items do not affect later ones |
| `Scheduled.RunSendsAsAlone` | src/handlers/scheduled.ts:30-66 | the messages of a completed run are each item's own message, in selection order |
| `Scheduled.RunAbortsOn` | src/handlers/scheduled.ts:67-81 | when an item's `try` fails and its failure update throws too, the run ends with an error |
| `Errors.CaughtMessage` | src/handlers/scheduled.ts:73 | the stored last error is the message of any `Error` and the rendering of any other thrown value |
| `Scheduled.RunFailedItem` | src/handlers/scheduled.ts:67-75 | in a completed run an item whose scrape failed has its error count up by one and the caught message, its price and check time unchanged, so it stays due |
| `Scheduled.ScheduledFailedItem` | src/handlers/scheduled.ts:30-75 | with the Tokopedia scraper, that failure is a `ScrapingError` for the item's URL and its message is the stored last error |
| `Scheduled.TryItem` | src/handlers/scheduled.ts:31-66 | the `try` block on the database does what its specification function says: row, ledger, message and error |
| `Scheduled.CheckItem` | src/handlers/scheduled.ts:31-76 | the iteration with its `catch` does what its specification function says and keeps the database consistent |
| `Scheduled.RunItems` | src/handlers/scheduled.ts:30-77 | the loop does what the run's specification function says, stopping at the first error that escapes an iteration, and keeps the database consistent |
| `Scheduled.ScheduledRun` | src/handlers/scheduled.ts:11-82 | the run never adds or removes items, and a failed selection is rethrown with nothing sent |
| `Scheduled.ScheduledHandler` | src/handlers/scheduled.ts:11-82 | the handler rethrows a failed selection, does nothing on an empty one, otherwise runs the loop as specified; the database stays consistent and the users are untouched |

## Left out

- Network and parsing are oracles. The network request, its 10-second abort
  timeout and the user-agent header are not modelled, nor is the HTML
  parsing with `trim()`. The caller supplies the fetch outcome and the
  page's title and price text.
- Scraped prices are read exactly. The `parseFloat` of the normalised price
  text (`src/scrapers/tokopedia.ts:74`) is modelled as exact decimal reading
  (`Tokopedia.ParseDecimal`), with no binary64 rounding. So are `Math.min`
  and the price comparisons.
- `Items.AddEnv.parsedTarget`: the `parseFloat(targetPriceStr)` of `/add`
  (`src/handlers/items.ts:23`) is not computed. Its word may carry a sign,
  an exponent or `Infinity`, which `Tokopedia.ParseDecimal` does not read.
  The number is a parameter of the `/add` environment, unconstrained by the
  word, and NaN is represented as no target (`None`), which is what the
  truthiness tests at `src/handlers/items.ts:64` and
  `src/handlers/scheduled.ts:58` make of it.
- Message text is abstract. Texts built with `formatIDR` or `toLocaleString`
  become their data (`Notice`, `AddReply`, `ListEntry`). Locale formatting,
  `toLocaleTimeString` and the emoji prefixes are not modelled.
- `Text.NatToString` renders non-negative integers only. This covers
  `Date.now()` and HTTP status codes.
- Lengths are counted in characters, not UTF-16 code units.
- SQL is not executed:
  - `items` is a map and `price_history` a sequence.
  - `errorCount` is a natural number: the nullable column is taken at its
    default 0, and `NULL + 1` is not modelled.
  - Rows tied on `lastChecked` may come in any order. The query's result is a
    parameter, and `Scheduled.DueBatchExists` shows that a conforming result
    always exists.
- Schema constraints beyond the primary keys are not enforced. `/add` never
  sets `short_id`, which the schema declares required and unique.
- `generateId` and `truncate` in the scheduled handler:
  `src/handlers/scheduled.ts:4` imports both from `src/utils/idGenerator.ts`,
  which exports neither, so as written the import does not resolve. The model
  gives the handler the `truncate` of `src/handlers/items.ts:11-13` and
  assumes `generateId` returns a fresh ledger row id (see the next line).
- Ledger row ids are not modelled. `ph_${Date.now()}` and `generateId` only
  name ledger rows, so a collision on the ledger's primary key is not
  modelled either.
- `/add` reads the clock once. It is modelled as one instant for the item
  id, the ledger row and the check time.
- Telegram calls are reduced to their effect. In `/add` and the scheduled
  run, `ctx.reply` and `sendMessage` become the reply or message they carry,
  or a thrown value. Console logging is not modelled.
- `Items.HandleMyItemsCommand`: a failing `select` (`src/handlers/items.ts:78`)
  and a throwing `ctx.reply` (`src/handlers/items.ts:81` and `:95`) are not
  modelled there. The query result is a parameter, and the reply is the
  method's result.
- `Middleware.HandleUpdate`: a `ctx.reply` that itself throws inside the
  middleware is not modelled.
- The oracles for the scheduled run are functions of the item (`world`).
  The clock read after each scrape is part of that answer.
- `Scheduled.StartOfDay`: the UTC calendar is reduced to whole days of
  86,400,000 ms since the epoch. Leap seconds do not exist in that clock.
- Overlapping scheduled runs and all concurrency are not modelled.
- Not part of this model:
  - `src/handlers/user.ts`;
  - `src/utils/chartGenerator.ts`;
  - `src/utils/priceFormatter.ts`;
  - `src/utils/userAgent.ts`;
  - `src/index.ts`;
  - `scripts/init-command.ts`.
