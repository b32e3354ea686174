/**
 * The item commands (src/handlers/items.ts): `truncate`, the `/add` command
 * (argument splitting, the ordered checks, the scrape and the two inserts)
 * and the `/myitems` listing. Telegram replies and price formatting with
 * `toLocaleString` are left abstract: a reply is the data it would render.
 */
module Items {
  import opened Wrappers
  import opened Text
  import opened Errors
  import opened Schema
  import Tokopedia
  import Middleware

  // ---------------------------------------------------------------------------
  // truncate
  // ---------------------------------------------------------------------------

  /** The default of `maxLength`. */
  const DefaultMaxLength := 50

  /**
   * `truncate(text, maxLength)`: a text within the limit is returned as it is;
   * a longer one is cut to `maxLength` characters followed by `...`.
   */
  function Truncate(text: string, maxLength: nat := DefaultMaxLength): (r: string)
    ensures |r| <= (if |text| <= maxLength then maxLength else maxLength + 3)
    ensures |text| <= maxLength ==> r == text
    ensures |text| > maxLength ==>
      |r| == maxLength + 3 && r[..maxLength] == text[..maxLength] && r[maxLength..] == "..."
  {
    if |text| > maxLength then text[..maxLength] + "..." else text
  }

  /** Truncating an already truncated text changes nothing. */
  lemma TruncateIdempotent(text: string, maxLength: nat)
    ensures Truncate(Truncate(text, maxLength), maxLength) == Truncate(text, maxLength)
  {
    if |text| > maxLength {
      var r := Truncate(text, maxLength);
      assert r[..maxLength] + "..." == r;
    }
  }

  // ---------------------------------------------------------------------------
  // ctx.match.split(' ').filter(Boolean)
  // ---------------------------------------------------------------------------

  /** `s.split(' ')`: the pieces between single spaces, empty ones included. */
  function SplitOnSpace(s: string): (parts: seq<string>)
    ensures |parts| >= 1
    ensures forall i :: 0 <= i < |parts| ==> ' ' !in parts[i]
  {
    if s == [] then [""]
    else
      var tail := SplitOnSpace(s[1..]);
      if s[0] == ' ' then [""] + tail else [[s[0]] + tail[0]] + tail[1..]
  }

  /** `parts.join(' ')`. */
  function JoinWithSpace(parts: seq<string>): string
    requires |parts| >= 1
  {
    if |parts| == 1 then parts[0] else parts[0] + " " + JoinWithSpace(parts[1..])
  }

  /** Splitting on spaces loses nothing: joining the pieces back gives the input. */
  lemma {:induction false} SplitJoinRoundTrip(s: string)
    ensures JoinWithSpace(SplitOnSpace(s)) == s
  {
    if s != [] {
      var tail := SplitOnSpace(s[1..]);
      SplitJoinRoundTrip(s[1..]);
      if s[0] != ' ' {
        var parts := [[s[0]] + tail[0]] + tail[1..];
        assert parts[1..] == tail[1..];
        if |tail| == 1 {
          assert JoinWithSpace(parts) == [s[0]] + JoinWithSpace(tail);
        } else {
          assert JoinWithSpace(tail) == tail[0] + " " + JoinWithSpace(tail[1..]);
          assert JoinWithSpace(parts) == [s[0]] + JoinWithSpace(tail);
        }
        assert s == [s[0]] + s[1..];
      } else {
        assert s == " " + s[1..];
      }
    }
  }

  /** `.filter(Boolean)`: the non-empty pieces, in order. */
  function NonEmpty(parts: seq<string>): (r: seq<string>)
    ensures |r| <= |parts|
    ensures forall i :: 0 <= i < |r| ==> r[i] != "" && r[i] in parts
  {
    if parts == [] then []
    else (if parts[0] != "" then [parts[0]] else []) + NonEmpty(parts[1..])
  }

  /** The words of the command text. */
  function Tokens(s: string): (r: seq<string>)
    ensures forall i :: 0 <= i < |r| ==> r[i] != "" && ' ' !in r[i]
  {
    NonEmpty(SplitOnSpace(s))
  }

  function Concat(parts: seq<string>): string {
    if parts == [] then "" else parts[0] + Concat(parts[1..])
  }

  /** `s` with every space removed. */
  function WithoutSpaces(s: string): string {
    if s == [] then "" else (if s[0] == ' ' then "" else [s[0]]) + WithoutSpaces(s[1..])
  }

  lemma {:induction false} ConcatNonEmpty(parts: seq<string>)
    ensures Concat(NonEmpty(parts)) == Concat(parts)
  {
    if parts != [] {
      ConcatNonEmpty(parts[1..]);
      assert Concat(parts) == parts[0] + Concat(parts[1..]);
      if parts[0] != "" {
        assert NonEmpty(parts) == [parts[0]] + NonEmpty(parts[1..]);
        assert ([parts[0]] + NonEmpty(parts[1..]))[1..] == NonEmpty(parts[1..]);
      } else {
        assert NonEmpty(parts) == NonEmpty(parts[1..]);
      }
    }
  }

  lemma {:induction false} ConcatSplit(s: string)
    ensures Concat(SplitOnSpace(s)) == WithoutSpaces(s)
  {
    if s != [] {
      ConcatSplit(s[1..]);
      var tail := SplitOnSpace(s[1..]);
      if s[0] == ' ' {
        assert ([""] + tail)[1..] == tail;
      } else {
        var parts := [[s[0]] + tail[0]] + tail[1..];
        assert parts[1..] == tail[1..];
        assert Concat(tail) == tail[0] + Concat(tail[1..]);
      }
    }
  }

  /** The words of the text, run together, are the text without its spaces. */
  lemma TokensCoverText(s: string)
    ensures Concat(Tokens(s)) == WithoutSpaces(s)
  {
    ConcatNonEmpty(SplitOnSpace(s));
    ConcatSplit(s);
  }

  /** Filtering a concatenation filters each side: every non-empty piece is kept, in order. */
  lemma {:induction false} NonEmptyAppend(a: seq<string>, b: seq<string>)
    ensures NonEmpty(a + b) == NonEmpty(a) + NonEmpty(b)
  {
    if a == [] {
      assert a + b == b;
    } else {
      var head: seq<string> := if a[0] != "" then [a[0]] else [];
      NonEmptyAppend(a[1..], b);
      assert (a + b)[0] == a[0] && (a + b)[1..] == a[1..] + b;
      assert NonEmpty(a + b) == head + NonEmpty(a[1..] + b);
      assert NonEmpty(a) == head + NonEmpty(a[1..]);
      SeqAssoc(head, NonEmpty(a[1..]), NonEmpty(b));
    }
  }

  /** Concatenation of piece lists is associative. */
  lemma SeqAssoc(x: seq<string>, y: seq<string>, z: seq<string>)
    ensures x + (y + z) == (x + y) + z
  {
  }

  /** A single piece survives the filter exactly when it is not empty. */
  lemma NonEmptySingle(p: string)
    ensures NonEmpty([p]) == if p == "" then [] else [p]
  {
    assert [p][1..] == [];
  }

  /** Leading spaces only add empty pieces, which the filter drops. */
  lemma {:induction false} LeadingSpacesDropped(lead: string, x: string)
    requires forall i :: 0 <= i < |lead| ==> lead[i] == ' '
    ensures Tokens(lead + x) == Tokens(x)
  {
    if lead == [] {
      assert lead + x == x;
    } else {
      var y := lead[1..] + x;
      LeadingSpacesDropped(lead[1..], x);
      assert (lead + x)[0] == ' ' && (lead + x)[1..] == y;
      var rest := SplitOnSpace(y);
      assert SplitOnSpace(lead + x) == [""] + rest;
      assert ([""] + rest)[1..] == rest;
    }
  }

  /** A space-free word in front of `rest` is the start of the first piece. */
  lemma {:induction false} SplitWord(w: string, rest: string)
    requires ' ' !in w
    ensures var tail := SplitOnSpace(rest);
      SplitOnSpace(w + rest) == [w + tail[0]] + tail[1..]
  {
    var tail := SplitOnSpace(rest);
    if w == [] {
      assert w + rest == rest;
      assert w + tail[0] == tail[0];
      assert [tail[0]] + tail[1..] == tail;
    } else {
      assert w[0] in w;
      assert forall i :: 0 <= i < |w[1..]| ==> w[1..][i] == w[i + 1];
      SplitWord(w[1..], rest);
      var s := w + rest;
      assert s[0] == w[0] && s[1..] == w[1..] + rest;
      var tail' := SplitOnSpace(s[1..]);
      assert tail' == [w[1..] + tail[0]] + tail[1..];
      assert SplitOnSpace(s) == [[w[0]] + tail'[0]] + tail'[1..];
      assert [w[0]] + (w[1..] + tail[0]) == w + tail[0];
    }
  }

  /** A non-empty space-free word ended by a space or by the end of the text is the first word. */
  lemma WordThenRest(w: string, rest: string)
    requires w != "" && ' ' !in w
    requires rest == "" || rest[0] == ' '
    ensures Tokens(w + rest) == [w] + Tokens(rest)
  {
    SplitWord(w, rest);
    NonEmptySingle(w);
    NonEmptySingle("");
    if rest == "" {
      assert w + rest == w;
      assert SplitOnSpace(w + rest) == [w];
      assert Tokens(rest) == [];
    } else {
      var pieces := SplitOnSpace(rest[1..]);
      assert SplitOnSpace(rest) == [""] + pieces;
      assert ([""] + pieces)[1..] == pieces;
      assert w + "" == w;
      assert SplitOnSpace(w + rest) == [w] + pieces;
      NonEmptyAppend([w], pieces);
      NonEmptyAppend([""], pieces);
      assert Tokens(w + rest) == [w] + NonEmpty(pieces);
      assert Tokens(rest) == NonEmpty(pieces);
    }
  }

  /**
   * The words are the maximal space-free runs: after any leading spaces, a
   * non-empty space-free word ended by a space or by the end of the text is
   * the first word, so it is the URL `/add` takes, and the remaining words are
   * those of the rest.
   */
  lemma FirstToken(lead: string, w: string, rest: string)
    requires forall i :: 0 <= i < |lead| ==> lead[i] == ' '
    requires w != "" && ' ' !in w
    requires rest == "" || rest[0] == ' '
    ensures Tokens(lead + w + rest) == [w] + Tokens(rest)
    ensures AddArguments(lead + w + rest).0 == Some(w)
  {
    assert lead + w + rest == lead + (w + rest);
    LeadingSpacesDropped(lead, w + rest);
    WordThenRest(w, rest);
  }

  /** `const [url, targetPriceStr] = ...`: the first and second words, if any. */
  function AddArguments(text: string): (Option<string>, Option<string>) {
    var words := Tokens(text);
    (if |words| > 0 then Some(words[0]) else None, if |words| > 1 then Some(words[1]) else None)
  }

  // ---------------------------------------------------------------------------
  // /add
  // ---------------------------------------------------------------------------

  const MissingUserIdError := BotError("Missing user ID", "❌ Unable to identify your account.")
  const MissingUrlError := BotError("Missing URL", "Please provide a product URL. Usage: /add <url> [target_price]")
  const InvalidUrlError := BotError("Invalid URL", "❌ Invalid Tokopedia URL. Please provide a valid Tokopedia product link.")
  const UnregisteredError := BotError("Unregistered user", "Please use /start first to register your account.")
  /**
   * What the store throws when `items.id` is already taken. The source does
   * not spell this message out; it is the model's stand-in for the database
   * driver's primary-key error, and only its being an `Error` without `url`
   * matters to the code.
   */
  const DuplicateItemError := PlainError("UNIQUE constraint failed: items.id", None)

  /** The statements of `/add` that talk to the database or to Telegram and can throw. */
  datatype AddStage = SelectUser | InsertItem | InsertHistory | SendReply

  /**
   * What the outside world answers during one `/add`: the fetch and the
   * parsed page for the scrape, what `parseFloat` makes of the second word
   * (`None` for NaN), the clock, and which statements throw.
   */
  datatype AddEnv = AddEnv(
    fetched: Tokopedia.FetchResult,
    page: Tokopedia.PageFields,
    parsedTarget: Option<real>,
    now: nat,
    faults: map<AddStage, Thrown>)

  /** The reply text's content: truncated title, price, and the target when it is truthy. */
  datatype AddReply = AddReply(title: string, price: real, target: Option<real>)

  datatype AddResult = AddResult(
    items: map<ItemId, Item>,
    history: seq<PriceRecord>,
    reply: Option<AddReply>,
    error: Option<Thrown>)

  /** `item_${Date.now()}`. */
  function NewItemId(now: nat): ItemId {
    "item_" + NatToString(now)
  }

  /** Two `/add` commands in different milliseconds choose different item ids. */
  lemma NewItemIdInjective(m: nat, n: nat)
    requires NewItemId(m) == NewItemId(n)
    ensures m == n
  {
    assert NatToString(m) == NewItemId(m)[5..];
    assert NatToString(n) == NewItemId(n)[5..];
    NatToStringInjective(m, n);
  }

  /** The new row `/add` inserts. */
  function NewItem(id: ItemId, url: string, product: Tokopedia.ScrapedProduct, targetPrice: Option<real>, now: nat, userId: UserId): Item {
    Item(id, None, url, product.title, product.price, targetPrice, now, 0, None, userId)
  }

  /** The target that `/add` stores: `parseFloat` of the second word, when there is one. */
  function TargetOf(text: string, env: AddEnv): Option<real> {
    if AddArguments(text).1.Some? then env.parsedTarget else None
  }

  /**
   * `handleAddCommand`, as a function of the state before it and of what the
   * world answers. Existing rows are never changed; only a registered user's
   * command changes the tables; no ledger row is written without its item
   * row; a reply follows both inserts.
   */
  function AddCommand(users: set<UserId>, items: map<ItemId, Item>, history: seq<PriceRecord>,
                      userId: Option<string>, text: string, env: AddEnv): (r: AddResult)
    ensures forall k :: k in items ==> k in r.items && r.items[k] == items[k]
    ensures r.items != items ==> userId.Some? && userId.value in users
    ensures r.items == items ==> r.history == history
    ensures r.reply.Some? ==> NewItemId(env.now) !in items && NewItemId(env.now) in r.items && |r.history| == |history| + 1
  {
    if userId.None? || userId.value == "" then AddResult(items, history, None, Some(MissingUserIdError))
    else
      var url := AddArguments(text).0;
      if url.None? then AddResult(items, history, None, Some(MissingUrlError))
      else if !Tokopedia.IsValidTokopediaUrl(url.value) then AddResult(items, history, None, Some(InvalidUrlError))
      else if SelectUser in env.faults then AddResult(items, history, None, Some(env.faults[SelectUser]))
      else if userId.value !in users then AddResult(items, history, None, Some(UnregisteredError))
      else
        AddChecked(items, history, userId.value, url.value, TargetOf(text, env),
                   Tokopedia.ScrapeTokopedia(url.value, env.fetched, env.page), env)
  }

  /**
   * What `/add` does once its checks have passed, given what the scraper
   * returned or threw. Existing rows are never changed; a failed scrape
   * changes nothing; no ledger row is written without its item row; a reply
   * follows both inserts.
   */
  function AddChecked(items: map<ItemId, Item>, history: seq<PriceRecord>, userId: UserId, url: string,
                      targetPrice: Option<real>, scraped: Result<Tokopedia.ScrapedProduct, Thrown>,
                      env: AddEnv): (r: AddResult)
    ensures forall k :: k in items ==> k in r.items && r.items[k] == items[k]
    ensures scraped.Failure? ==> r.items == items && r.history == history && r.reply.None?
    ensures r.items == items ==> r.history == history
    ensures r.reply.Some? ==> NewItemId(env.now) !in items && NewItemId(env.now) in r.items && |r.history| == |history| + 1
  {
    match scraped
    case Failure(e) => AddResult(items, history, None, Some(e))
    case Success(product) =>
      var id := NewItemId(env.now);
      if InsertItem in env.faults then AddResult(items, history, None, Some(env.faults[InsertItem]))
      else if id in items then AddResult(items, history, None, Some(DuplicateItemError))
      else
        var items' := items[id := NewItem(id, url, product, targetPrice, env.now, userId)];
        if InsertHistory in env.faults then AddResult(items', history, None, Some(env.faults[InsertHistory]))
        else
          var history' := history + [PriceRecord(id, product.price, env.now)];
          var reply := AddReply(Truncate(product.title), product.price,
                                if Truthy(targetPrice) then targetPrice else None);
          AddResult(items', history', Some(reply),
                    if SendReply in env.faults then Some(env.faults[SendReply]) else None)
  }

  /**
   * `handleAddCommand(ctx, db)`: the checks in order, then the scrape, the
   * item insert, the ledger insert and the reply. `reply` is what `ctx.reply`
   * was called with; `error` is what the handler throws.
   */
  method HandleAddCommand(db: Database, userId: Option<string>, text: string, env: AddEnv)
    returns (reply: Option<AddReply>, error: Option<Thrown>)
    requires db.Valid()
    modifies db
    ensures db.Valid()
    ensures db.users == old(db.users)
    ensures var r := AddCommand(old(db.users), old(db.items), old(db.history), userId, text, env);
      db.items == r.items && db.history == r.history && reply == r.reply && error == r.error
  {
    reply := None;
    if userId.None? || userId.value == "" {
      return None, Some(MissingUserIdError);
    }
    var (url, targetText) := AddArguments(text);
    var targetPrice := if targetText.Some? then env.parsedTarget else None;
    if url.None? {
      return None, Some(MissingUrlError);
    }
    if !Tokopedia.IsValidTokopediaUrl(url.value) {
      return None, Some(InvalidUrlError);
    }
    if SelectUser in env.faults {
      return None, Some(env.faults[SelectUser]);
    }
    if userId.value !in db.users {
      return None, Some(UnregisteredError);
    }
    var scraped := Tokopedia.ScrapeTokopedia(url.value, env.fetched, env.page);
    reply, error := AddScraped(db, userId.value, url.value, targetPrice, scraped, env);
  }

  /** The part of `handleAddCommand` after its checks: the inserts and the reply. */
  method AddScraped(db: Database, userId: UserId, url: string, targetPrice: Option<real>,
                    scraped: Result<Tokopedia.ScrapedProduct, Thrown>, env: AddEnv)
    returns (reply: Option<AddReply>, error: Option<Thrown>)
    requires db.Valid()
    modifies db
    ensures db.Valid()
    ensures db.users == old(db.users)
    ensures var r := AddChecked(old(db.items), old(db.history), userId, url, targetPrice, scraped, env);
      db.items == r.items && db.history == r.history && reply == r.reply && error == r.error
  {
    AddCheckedKeepsConsistent(db.items, db.history, userId, url, targetPrice, scraped, env);
    reply := None;
    if scraped.Failure? {
      return None, Some(scraped.error);
    }
    var product := scraped.value;
    var id := NewItemId(env.now);
    if InsertItem in env.faults {
      return None, Some(env.faults[InsertItem]);
    }
    if id in db.items {
      return None, Some(DuplicateItemError);
    }
    db.items := db.items[id := NewItem(id, url, product, targetPrice, env.now, userId)];
    if InsertHistory in env.faults {
      return None, Some(env.faults[InsertHistory]);
    }
    db.history := db.history + [PriceRecord(id, product.price, env.now)];
    reply := Some(AddReply(Truncate(product.title), product.price,
                           if Truthy(targetPrice) then targetPrice else None));
    error := if SendReply in env.faults then Some(env.faults[SendReply]) else None;
  }

  /**
   * The checks run in order (missing user id, missing URL, invalid URL,
   * unregistered user) and each fails with its `BotError` leaving the store
   * as it was, whatever the fetch would have returned.
   */
  lemma AddChecksInOrder(users: set<UserId>, items: map<ItemId, Item>, history: seq<PriceRecord>,
                         userId: Option<string>, text: string, env: AddEnv)
    ensures var r := AddCommand(users, items, history, userId, text, env);
      var url := AddArguments(text).0;
      var rejected := (e: Thrown) => r == AddResult(items, history, None, Some(e));
      && (userId.None? || userId.value == "" ==> rejected(MissingUserIdError))
      && (userId.Some? && userId.value != "" && url.None? ==> rejected(MissingUrlError))
      && (userId.Some? && userId.value != "" && url.Some? && !Tokopedia.IsValidTokopediaUrl(url.value) ==>
            rejected(InvalidUrlError))
      && (userId.Some? && userId.value != "" && url.Some? && Tokopedia.IsValidTokopediaUrl(url.value)
          && SelectUser !in env.faults && userId.value !in users
          ==> rejected(UnregisteredError))
  {
  }

  /** A failure of one of the checks does not depend on the scrape: no fetch happens before them. */
  lemma AddChecksPrecedeScrape(users: set<UserId>, items: map<ItemId, Item>, history: seq<PriceRecord>,
                               userId: Option<string>, text: string, env: AddEnv,
                               fetched: Tokopedia.FetchResult, page: Tokopedia.PageFields)
    requires AddCommand(users, items, history, userId, text, env).error.Some?
    requires AddCommand(users, items, history, userId, text, env).error.value.BotError?
    requires forall s :: s in env.faults ==> !env.faults[s].BotError?
    ensures AddCommand(users, items, history, userId, text, env.(fetched := fetched, page := page)) ==
            AddCommand(users, items, history, userId, text, env)
  {
    var url := AddArguments(text).0;
    if userId.Some? && url.Some? {
      var scraped := Tokopedia.ScrapeTokopedia(url.value, env.fetched, env.page);
      AddCheckedNeverBotError(items, history, userId.value, url.value, TargetOf(text, env), scraped, env);
    }
  }

  /** Once the checks have passed, `/add` throws no `BotError` unless a statement does. */
  lemma AddCheckedNeverBotError(items: map<ItemId, Item>, history: seq<PriceRecord>, userId: UserId, url: string,
                                targetPrice: Option<real>, scraped: Result<Tokopedia.ScrapedProduct, Thrown>,
                                env: AddEnv)
    requires scraped.Failure? ==> scraped.error.ScrapingError?
    requires forall s :: s in env.faults ==> !env.faults[s].BotError?
    ensures var r := AddChecked(items, history, userId, url, targetPrice, scraped, env);
      r.error.Some? ==> !r.error.value.BotError?
  {
    if AddChecked(items, history, userId, url, targetPrice, scraped, env).error.Some? {
      AddCheckedThrowsErrors(items, history, userId, url, targetPrice, scraped, env);
    }
  }

  /**
   * A successful `/add` inserts exactly one new item, with a fresh id, the
   * scraped price and no error record, and exactly one ledger row for that
   * item with the same price; the reply shows the target only when it is truthy.
   */
  lemma AddSuccess(users: set<UserId>, items: map<ItemId, Item>, history: seq<PriceRecord>,
                   userId: Option<string>, text: string, env: AddEnv)
    requires AddCommand(users, items, history, userId, text, env).error.None?
    ensures var r := AddCommand(users, items, history, userId, text, env);
      var id := NewItemId(env.now);
      && userId.Some? && userId.value in users
      && AddArguments(text).0.Some? && Tokopedia.IsValidTokopediaUrl(AddArguments(text).0.value)
      && id !in items && id in r.items
      && r.items == items[id := r.items[id]]
      && r.items[id].userId == userId.value && r.items[id].url == AddArguments(text).0.value
      && r.items[id].errorCount == 0 && r.items[id].lastError.None? && r.items[id].lastChecked == env.now
      && r.items[id].targetPrice == TargetOf(text, env)
      && r.history == history + [PriceRecord(id, r.items[id].currentPrice, env.now)]
      && r.reply.Some?
      && r.reply.value.price == r.items[id].currentPrice
      && (r.reply.value.target.Some? <==> Truthy(r.items[id].targetPrice))
  {
    var url := AddArguments(text).0;
    assert userId.Some? && userId.value != "" && url.Some? && Tokopedia.IsValidTokopediaUrl(url.value);
    assert SelectUser !in env.faults && userId.value in users;
    AddCheckedSuccess(items, history, userId.value, url.value, TargetOf(text, env),
                      Tokopedia.ScrapeTokopedia(url.value, env.fetched, env.page), env);
  }

  lemma AddCheckedSuccess(items: map<ItemId, Item>, history: seq<PriceRecord>, userId: UserId, url: string,
                          targetPrice: Option<real>, scraped: Result<Tokopedia.ScrapedProduct, Thrown>, env: AddEnv)
    requires AddChecked(items, history, userId, url, targetPrice, scraped, env).error.None?
    ensures var r := AddChecked(items, history, userId, url, targetPrice, scraped, env);
      var id := NewItemId(env.now);
      && scraped.Success? && id !in items
      && r.items == items[id := NewItem(id, url, scraped.value, targetPrice, env.now, userId)]
      && r.history == history + [PriceRecord(id, scraped.value.price, env.now)]
      && r.reply == Some(AddReply(Truncate(scraped.value.title), scraped.value.price,
                                  if Truthy(targetPrice) then targetPrice else None))
  {
  }

  /** `/add` keeps the store consistent, even when it fails half-way. */
  lemma AddKeepsConsistent(users: set<UserId>, items: map<ItemId, Item>, history: seq<PriceRecord>,
                           userId: Option<string>, text: string, env: AddEnv)
    requires Consistent(items, history)
    ensures var r := AddCommand(users, items, history, userId, text, env);
      && Consistent(r.items, r.history) && items.Keys <= r.items.Keys
      && (forall k :: k in r.items && k !in items ==> k == NewItemId(env.now))
      && history <= r.history && |r.history| <= |history| + 1
  {
    var url := AddArguments(text).0;
    if userId.Some? && userId.value != "" && url.Some? && Tokopedia.IsValidTokopediaUrl(url.value)
       && SelectUser !in env.faults && userId.value in users {
      AddCheckedKeepsConsistent(items, history, userId.value, url.value, TargetOf(text, env),
                                Tokopedia.ScrapeTokopedia(url.value, env.fetched, env.page), env);
    } else {
      var r := AddCommand(users, items, history, userId, text, env);
      assert r.items == items && r.history == history;
    }
  }

  lemma AddCheckedKeepsConsistent(items: map<ItemId, Item>, history: seq<PriceRecord>, userId: UserId, url: string,
                                  targetPrice: Option<real>, scraped: Result<Tokopedia.ScrapedProduct, Thrown>,
                                  env: AddEnv)
    requires Consistent(items, history)
    ensures var r := AddChecked(items, history, userId, url, targetPrice, scraped, env);
      && Consistent(r.items, r.history) && items.Keys <= r.items.Keys
      && (forall k :: k in r.items && k !in items ==> k == NewItemId(env.now))
      && history <= r.history && |r.history| <= |history| + 1
  {
    var id := NewItemId(env.now);
    var r := AddChecked(items, history, userId, url, targetPrice, scraped, env);
    if scraped.Success? && InsertItem !in env.faults && id !in items {
      var item := NewItem(id, url, scraped.value, targetPrice, env.now, userId);
      assert r.items == items[id := item];
      InsertKeepsConsistent(items, history, item, r.history);
    } else {
      assert r.items == items && r.history == history;
    }
  }

  lemma InsertKeepsConsistent(items: map<ItemId, Item>, history: seq<PriceRecord>, item: Item, history': seq<PriceRecord>)
    requires Consistent(items, history) && item.id !in items
    requires history' == history || history' == history + [PriceRecord(item.id, item.currentPrice, item.lastChecked)]
    ensures Consistent(items[item.id := item], history')
    ensures history <= history' && |history'| <= |history| + 1
  {
  }

  /**
   * Every failing `/add` gets a reply from the middleware, provided what the
   * database and Telegram throw are `Error`s; a failed scrape gets the
   * product-page reply.
   */
  lemma AddFailureAnswered(users: set<UserId>, items: map<ItemId, Item>, history: seq<PriceRecord>,
                           userId: Option<string>, text: string, env: AddEnv)
    requires forall s :: s in env.faults ==> IsErrorInstance(env.faults[s])
    requires AddCommand(users, items, history, userId, text, env).error.Some?
    ensures var e := AddCommand(users, items, history, userId, text, env).error.value;
      && Middleware.ErrorReply(e).Some?
      && (e.ScrapingError? ==> Middleware.ErrorReply(e) == Some(Middleware.FailedPageReply))
  {
    var url := AddArguments(text).0;
    if userId.Some? && userId.value != "" && url.Some? && Tokopedia.IsValidTokopediaUrl(url.value)
       && SelectUser !in env.faults && userId.value in users {
      AddCheckedThrowsErrors(items, history, userId.value, url.value, TargetOf(text, env),
                             Tokopedia.ScrapeTokopedia(url.value, env.fetched, env.page), env);
    }
  }

  /** After the checks, `/add` throws only what the scraper, the database or Telegram threw, or the key clash. */
  lemma AddCheckedThrowsErrors(items: map<ItemId, Item>, history: seq<PriceRecord>, userId: UserId, url: string,
                               targetPrice: Option<real>, scraped: Result<Tokopedia.ScrapedProduct, Thrown>,
                               env: AddEnv)
    requires AddChecked(items, history, userId, url, targetPrice, scraped, env).error.Some?
    ensures var e := AddChecked(items, history, userId, url, targetPrice, scraped, env).error.value;
      || (scraped.Failure? && e == scraped.error)
      || (exists s :: s in env.faults && e == env.faults[s])
      || e == DuplicateItemError
  {
  }

  // ---------------------------------------------------------------------------
  // /myitems
  // ---------------------------------------------------------------------------

  /** One item's part of the listing: truncated title, price, target when truthy, last check. */
  datatype ListEntry = ListEntry(title: string, price: real, target: Option<real>, lastChecked: int)

  datatype ItemsReply = NoItemsYet | ItemList(entries: seq<ListEntry>)

  function EntryFor(item: Item): (e: ListEntry)
    ensures e.target.Some? <==> Truthy(item.targetPrice)
    ensures |e.title| <= DefaultMaxLength + 3
  {
    ListEntry(Truncate(item.title), item.currentPrice,
              if Truthy(item.targetPrice) then item.targetPrice else None, item.lastChecked)
  }

  /**
   * `where(eq(items.userId, userId))`: `rows` lists every item of the table
   * that belongs to `userId`, each exactly once, and nothing else.
   */
  predicate IsUserListing(items: map<ItemId, Item>, userId: UserId, rows: seq<Item>) {
    && (forall i :: 0 <= i < |rows| ==>
          rows[i].id in items && items[rows[i].id] == rows[i] && rows[i].userId == userId)
    && (forall i, j :: 0 <= i < j < |rows| ==> rows[i].id != rows[j].id)
    && (forall k :: k in items && items[k].userId == userId ==>
          exists i :: 0 <= i < |rows| && rows[i].id == k)
  }

  /**
   * `handleMyItemsCommand` over the `items` table: `userItems` is what the
   * query for the user's items returned, in its order. The user gets the
   * "no items yet" reply exactly when the table holds none of theirs;
   * otherwise every item of theirs gets one entry, in query order, and no
   * other item does.
   */
  method HandleMyItemsCommand(items: map<ItemId, Item>, userId: Option<string>, userItems: seq<Item>)
    returns (r: Result<ItemsReply, Thrown>)
    requires userId.Some? && userId.value != "" ==> IsUserListing(items, userId.value, userItems)
    ensures userId.None? || userId.value == "" ==> r == Failure(MissingUserIdError)
    ensures userId.Some? && userId.value != "" ==>
      (r == Success(NoItemsYet) <==> forall k :: k in items ==> items[k].userId != userId.value)
    ensures userId.Some? && userId.value != "" && userItems != [] ==>
      r.Success? && r.value.ItemList? && |r.value.entries| == |userItems| &&
      (forall i :: 0 <= i < |userItems| ==>
         r.value.entries[i] == EntryFor(userItems[i]) && userItems[i].userId == userId.value) &&
      (forall k :: k in items && items[k].userId == userId.value ==>
         exists i :: 0 <= i < |r.value.entries| && r.value.entries[i] == EntryFor(items[k]))
  {
    if userId.None? || userId.value == "" {
      return Failure(MissingUserIdError);
    }
    if userItems == [] {
      return Success(NoItemsYet);
    }
    assert userItems[0].id in items && items[userItems[0].id].userId == userId.value;
    var entries: seq<ListEntry> := [];
    for k := 0 to |userItems|
      invariant |entries| == k
      invariant forall i :: 0 <= i < k ==> entries[i] == EntryFor(userItems[i])
    {
      entries := entries + [EntryFor(userItems[k])];
    }
    forall k | k in items && items[k].userId == userId.value
      ensures exists i :: 0 <= i < |entries| && entries[i] == EntryFor(items[k])
    {
      var i :| 0 <= i < |userItems| && userItems[i].id == k;
      assert entries[i] == EntryFor(items[k]);
    }
    r := Success(ItemList(entries));
  }
}
