/**
 * The scheduled price-monitoring pass (src/handlers/scheduled.ts).
 *
 * Once per trigger the handler selects at most ten items last checked before
 * today's UTC midnight, oldest first, and processes them one after another:
 * scrape the product page, record the new price on the item, append it to the
 * price ledger, and send a price alert when the target is reached. Anything
 * thrown while processing one item is recorded on that item (error count and
 * last error) and the batch goes on; only a failure of that recording, or of
 * the selection itself, aborts the run and is rethrown.
 *
 * The database query, the scraper's network and parser, the clock and the
 * Telegram client are oracles: the run receives the query's result and, for
 * each item, what the world answers while that item is processed.
 */
module Scheduled {
  import opened Wrappers
  import opened Errors
  import opened Schema
  import Tokopedia
  import Items

  const BatchSize := 10
  const DayMs := 86400000

  // ---------------------------------------------------------------------------
  // Batch selection
  // ---------------------------------------------------------------------------

  /** Midnight UTC of the day containing `now` (milliseconds since the epoch). */
  function StartOfDay(now: int): (start: int)
    ensures start <= now < start + DayMs
    ensures start % DayMs == 0
  {
    now - now % DayMs
  }

  /** An item is due when it was last checked before the start of today. */
  predicate IsDue(item: Item, startOfDay: int) {
    item.lastChecked < startOfDay
  }

  /** Some element of `batch` carries the id `id`. */
  predicate InBatch(id: ItemId, batch: seq<Item>) {
    exists i :: 0 <= i < |batch| && batch[i].id == id
  }

  predicate DistinctIds(batch: seq<Item>) {
    forall i, j :: 0 <= i < j < |batch| ==> batch[i].id != batch[j].id
  }

  /**
   * What the query `where lastChecked < startOfDay order by lastChecked limit 10`
   * returns: current rows of due items, without repetition, oldest first, at
   * most ten of them, and every due item left out is no older than the last
   * one taken (so it is only left out when the batch is full). A batch that
   * is not full holds every due item; an empty one means nothing is due.
   */
  predicate IsDueBatch(items: map<ItemId, Item>, startOfDay: int, batch: seq<Item>)
    ensures IsDueBatch(items, startOfDay, batch) && |batch| < BatchSize ==>
      forall k :: k in items && IsDue(items[k], startOfDay) ==> InBatch(k, batch)
  {
    && |batch| <= BatchSize
    && (forall i :: 0 <= i < |batch| ==>
          batch[i].id in items && items[batch[i].id] == batch[i] && IsDue(batch[i], startOfDay))
    && DistinctIds(batch)
    && (forall i, j :: 0 <= i < j < |batch| ==> batch[i].lastChecked <= batch[j].lastChecked)
    && (forall k :: k in items && IsDue(items[k], startOfDay) && !InBatch(k, batch) ==>
          |batch| == BatchSize && batch[|batch| - 1].lastChecked <= items[k].lastChecked)
  }

  /** An id of `ids` whose item was checked longest ago. */
  lemma Oldest(items: map<ItemId, Item>, ids: set<ItemId>) returns (m: ItemId)
    requires ids != {} && ids <= items.Keys
    ensures m in ids
    ensures forall k :: k in ids ==> items[m].lastChecked <= items[k].lastChecked
    decreases ids
  {
    var x :| x in ids;
    if ids == {x} {
      m := x;
    } else {
      var y := Oldest(items, ids - {x});
      m := if items[x].lastChecked <= items[y].lastChecked then x else y;
    }
  }

  /** `all` lists every due item of `items`, each once, oldest first. */
  predicate DueOldestFirst(items: map<ItemId, Item>, startOfDay: int, all: seq<Item>) {
    && (forall i :: 0 <= i < |all| ==>
          all[i].id in items && items[all[i].id] == all[i] && IsDue(all[i], startOfDay))
    && DistinctIds(all)
    && (forall i, j :: 0 <= i < j < |all| ==> all[i].lastChecked <= all[j].lastChecked)
    && (forall k :: k in items && IsDue(items[k], startOfDay) ==> InBatch(k, all))
  }

  /** All due items, each once, oldest first. */
  lemma AllDueOldestFirst(items: map<ItemId, Item>, startOfDay: int) returns (all: seq<Item>)
    requires WellKeyed(items)
    ensures DueOldestFirst(items, startOfDay, all)
    decreases items.Keys
  {
    var due := set k | k in items && IsDue(items[k], startOfDay);
    if due == {} {
      assert forall k :: k in items && IsDue(items[k], startOfDay) ==> k in due;
      return [];
    }
    var m := Oldest(items, due);
    var rest := AllDueOldestFirst(items - {m}, startOfDay);
    all := [items[m]] + rest;
    PrependOldest(items, startOfDay, m, rest);
  }

  /** The oldest due item in front of the others, listed oldest first, lists all due items oldest first. */
  lemma PrependOldest(items: map<ItemId, Item>, startOfDay: int, m: ItemId, rest: seq<Item>)
    requires WellKeyed(items) && m in items && IsDue(items[m], startOfDay)
    requires forall k :: k in items && IsDue(items[k], startOfDay) ==> items[m].lastChecked <= items[k].lastChecked
    requires DueOldestFirst(items - {m}, startOfDay, rest)
    ensures DueOldestFirst(items, startOfDay, [items[m]] + rest)
  {
    var others := items - {m};
    var all := [items[m]] + rest;
    assert forall k :: k in others <==> k in items && k != m;
    assert forall k :: k in others ==> others[k] == items[k];
    assert forall i :: 0 < i < |all| ==> all[i] == rest[i - 1];
    forall k | k in items && IsDue(items[k], startOfDay) ensures InBatch(k, all) {
      if k == m {
        assert all[0].id == k;
      } else {
        var i :| 0 <= i < |rest| && rest[i].id == k;
        assert all[i + 1].id == k;
      }
    }
  }

  /** The query always has an answer: for every table there is a batch meeting its contract. */
  lemma DueBatchExists(items: map<ItemId, Item>, startOfDay: int) returns (batch: seq<Item>)
    requires WellKeyed(items)
    ensures IsDueBatch(items, startOfDay, batch)
  {
    var all := AllDueOldestFirst(items, startOfDay);
    var n := if |all| < BatchSize then |all| else BatchSize;
    batch := all[..n];
    assert forall i :: 0 <= i < n ==> batch[i] == all[i];
    forall k | k in items && IsDue(items[k], startOfDay) && !InBatch(k, batch)
      ensures |batch| == BatchSize && batch[|batch| - 1].lastChecked <= items[k].lastChecked
    {
      var j :| 0 <= j < |all| && all[j].id == k;
      assert forall i :: 0 <= i < n ==> all[i].id != k;
      assert all[n - 1] == batch[n - 1];
    }
  }

  /** `batch` read again from `items`: the same ids with their rows in `items`. */
  function Reread(items: map<ItemId, Item>, batch: seq<Item>): (r: seq<Item>)
    requires forall i :: 0 <= i < |batch| ==> batch[i].id in items
    ensures |r| == |batch| && forall i :: 0 <= i < |r| ==> r[i] == items[batch[i].id]
  {
    seq(|batch|, i requires 0 <= i < |batch| => items[batch[i].id])
  }

  /**
   * Selection looks only at ids and `lastChecked`: two tables that differ in
   * anything else (error count, last error, prices) select the same items.
   */
  lemma SelectionIgnoresErrorState(items: map<ItemId, Item>, items': map<ItemId, Item>, startOfDay: int, batch: seq<Item>)
    requires WellKeyed(items) && WellKeyed(items')
    requires items'.Keys == items.Keys
    requires forall k :: k in items ==> items'[k].lastChecked == items[k].lastChecked
    requires IsDueBatch(items, startOfDay, batch)
    ensures IsDueBatch(items', startOfDay, Reread(items', batch))
  {
    var batch' := Reread(items', batch);
    forall k | k in items' && IsDue(items'[k], startOfDay) && !InBatch(k, batch')
      ensures |batch'| == BatchSize && batch'[|batch'| - 1].lastChecked <= items'[k].lastChecked
    {
      assert forall i :: 0 <= i < |batch| && batch[i].id == k ==> batch'[i].id == k;
    }
  }

  // ---------------------------------------------------------------------------
  // The notification decision
  // ---------------------------------------------------------------------------

  /** A message to the item's owner; its text is formatted from these fields. */
  datatype Notice =
    | PriceAlert(userId: UserId, title: string, price: real, target: real)
    | LowestPrice(userId: UserId, title: string, price: real)

  function Min(a: real, b: real): real {
    if a <= b then a else b
  }

  /**
   * `records.reduce((min, r) => Math.min(min, r.price), seed)`: the least of
   * the seed and the recorded prices.
   */
  function MinPrice(records: seq<PriceRecord>, seed: real): (m: real)
    ensures m <= seed
    ensures forall i :: 0 <= i < |records| ==> m <= records[i].price
    ensures m == seed || exists i :: 0 <= i < |records| && m == records[i].price
  {
    if records == [] then seed
    else
      var m := MinPrice(records[1..], Min(seed, records[0].price));
      assert forall i :: 1 <= i < |records| ==> records[i] == records[1..][i - 1];
      m
  }

  /**
   * The message decision: a price alert when the target is truthy and reached;
   * otherwise a "lowest price" message when the price is below `minPrice`.
   */
  function Decide(item: Item, price: real, minPrice: real): (n: Option<Notice>)
    ensures n.Some? ==> n.value.userId == item.userId && n.value.price == price
    ensures n.Some? && n.value.PriceAlert? <==> Truthy(item.targetPrice) && price <= item.targetPrice.value
    ensures n.None? <==> !(Truthy(item.targetPrice) && price <= item.targetPrice.value) && minPrice <= price
  {
    var title := Items.Truncate(item.title);
    if Truthy(item.targetPrice) && price <= item.targetPrice.value then
      Some(PriceAlert(item.userId, title, price, item.targetPrice.value))
    else if price < minPrice then Some(LowestPrice(item.userId, title, price))
    else None
  }

  /**
   * With the minimum taken over the ledger (which by then holds the new price)
   * and seeded with the new price, a message is sent exactly when the target is
   * truthy and reached, and it is always a price alert: the "lowest price"
   * branch cannot be taken, and a target of 0 never alerts.
   */
  lemma DecisionIsTargetOnly(item: Item, price: real, records: seq<PriceRecord>)
    ensures var d := Decide(item, price, MinPrice(records, price));
      && (d.Some? <==> Truthy(item.targetPrice) && price <= item.targetPrice.value)
      && (d.Some? ==> d.value.PriceAlert? && d.value.price == price && d.value.userId == item.userId)
      && (item.targetPrice == Some(0.0) ==> d.None?)
  {
    assert MinPrice(records, price) <= price;
  }
  // ---------------------------------------------------------------------------
  // Processing one item
  // ---------------------------------------------------------------------------

  /** The statements inside the per-item `try` that talk to the database or Telegram and can throw. */
  datatype Stage = UpdateItem | InsertHistory | SelectHistory | SendMessage | RecordFailure

  /**
   * What the world answers while one item is processed: the fetch and the
   * parsed page for the scrape, the clock read after it, and which database
   * or Telegram statements throw (and what).
   */
  datatype ItemOracle = ItemOracle(
    fetched: Tokopedia.FetchResult,
    page: Tokopedia.PageFields,
    now: int,
    faults: map<Stage, Thrown>)

  /**
   * The state after one step, the message handed to `sendMessage` (if any)
   * and what was thrown: for the `try` block, what reaches the `catch`; for the
   * whole iteration, what escapes the `catch` and aborts the run.
   */
  datatype StepResult = StepResult(
    items: map<ItemId, Item>,
    history: seq<PriceRecord>,
    sent: Option<Notice>,
    thrown: Option<Thrown>)

  /** The success update: price, check time and a zeroed error count; `lastError` is kept. */
  function MarkChecked(items: map<ItemId, Item>, id: ItemId, price: real, now: int): (r: map<ItemId, Item>)
    ensures r.Keys == items.Keys
    ensures forall k :: k in items && k != id ==> r[k] == items[k]
  {
    if id in items then items[id := items[id].(currentPrice := price, lastChecked := now, errorCount := 0)]
    else items
  }

  /** The failure update: `errorCount + 1` and the message as last error. */
  function MarkFailed(items: map<ItemId, Item>, id: ItemId, message: string): (r: map<ItemId, Item>)
    ensures r.Keys == items.Keys
    ensures forall k :: k in items && k != id ==> r[k] == items[k]
  {
    if id in items then items[id := items[id].(errorCount := items[id].errorCount + 1, lastError := Some(message))]
    else items
  }

  /** The scrape of the item's page as this oracle answers it. */
  function Scrape(item: Item, o: ItemOracle): Result<Tokopedia.ScrapedProduct, Thrown> {
    Tokopedia.ScrapeTokopedia(item.url, o.fetched, o.page)
  }

  /**
   * The message sent once `price` is in the ledger: the decision against the
   * minimum over the item's ledger rows seeded with `price`, which is a price
   * alert exactly when the target is truthy and reached.
   */
  function Notify(item: Item, price: real, history: seq<PriceRecord>): (n: Option<Notice>)
    ensures n == Alert(item, price)
  {
    DecisionIsTargetOnly(item, price, RecordsOf(history, item.id));
    Decide(item, price, MinPrice(RecordsOf(history, item.id), price))
  }

  /** The price alert for `item` at `price`: sent exactly when the target is truthy and reached. */
  function Alert(item: Item, price: real): Option<Notice> {
    if Truthy(item.targetPrice) && price <= item.targetPrice.value
    then Some(PriceAlert(item.userId, Items.Truncate(item.title), price, item.targetPrice.value))
    else None
  }

  /** What one step may do to the store: only its own item, and at most the one ledger row of a successful scrape. */
  predicate StepFrame(items: map<ItemId, Item>, history: seq<PriceRecord>, item: Item,
                      scraped: Result<Tokopedia.ScrapedProduct, Thrown>, o: ItemOracle, r: StepResult)
  {
    && r.items.Keys == items.Keys
    && (forall k :: k in items && k != item.id ==> r.items[k] == items[k])
    && (item.id in items ==> r.items[item.id].id == items[item.id].id)
    && (r.history == history
        || (scraped.Success? && r.history == history + [PriceRecord(item.id, scraped.value.price, o.now)]))
    && (r.sent.Some? ==> r.sent.value.PriceAlert?)
  }

  /** The per-item `try` block, given what the scraper returned or threw. */
  function TryProcess(items: map<ItemId, Item>, history: seq<PriceRecord>, item: Item,
                      scraped: Result<Tokopedia.ScrapedProduct, Thrown>, o: ItemOracle): (r: StepResult)
    ensures StepFrame(items, history, item, scraped, o, r)
  {
    match scraped
    case Failure(e) => StepResult(items, history, None, Some(e))
    case Success(product) =>
      if UpdateItem in o.faults then StepResult(items, history, None, Some(o.faults[UpdateItem]))
      else
        var items1 := MarkChecked(items, item.id, product.price, o.now);
        if InsertHistory in o.faults then StepResult(items1, history, None, Some(o.faults[InsertHistory]))
        else
          var history1 := history + [PriceRecord(item.id, product.price, o.now)];
          if SelectHistory in o.faults then StepResult(items1, history1, None, Some(o.faults[SelectHistory]))
          else
            var notice := Notify(item, product.price, history1);
            if notice.Some? && SendMessage in o.faults then
              StepResult(items1, history1, notice, Some(o.faults[SendMessage]))
            else StepResult(items1, history1, notice, None)
  }

  /** One iteration of the loop: the `try` block and its `catch`. */
  function ProcessItem(items: map<ItemId, Item>, history: seq<PriceRecord>, item: Item,
                       scraped: Result<Tokopedia.ScrapedProduct, Thrown>, o: ItemOracle): (r: StepResult)
    ensures StepFrame(items, history, item, scraped, o, r)
  {
    var t := TryProcess(items, history, item, scraped, o);
    match t.thrown
    case None => t
    case Some(e) =>
      if RecordFailure in o.faults then StepResult(t.items, t.history, t.sent, Some(o.faults[RecordFailure]))
      else StepResult(MarkFailed(t.items, item.id, CaughtMessage(e)), t.history, t.sent, None)
  }

  /**
   * A successful scrape with no statement failing: the item gets the new price,
   * the check time and error count 0, everything else on it (last error,
   * target, title, URL) is kept; exactly one ledger row `(id, price, now)` is
   * appended; a message goes out exactly when the target is truthy and reached.
   */
  lemma ProcessSuccess(items: map<ItemId, Item>, history: seq<PriceRecord>, item: Item,
                       scraped: Result<Tokopedia.ScrapedProduct, Thrown>, o: ItemOracle)
    requires item.id in items && scraped.Success? && o.faults == map[]
    ensures var price := scraped.value.price;
      var r := ProcessItem(items, history, item, scraped, o);
      && r.items == items[item.id := items[item.id].(currentPrice := price, lastChecked := o.now, errorCount := 0)]
      && r.history == history + [PriceRecord(item.id, price, o.now)]
      && r.thrown.None?
      && (r.sent.Some? <==> Truthy(item.targetPrice) && price <= item.targetPrice.value)
  {
  }

  /**
   * A failed scrape: the error count goes up by exactly one and the caught
   * message becomes the last error; price, check time and ledger are unchanged
   * and no message is sent.
   */
  lemma ProcessScrapeFailure(items: map<ItemId, Item>, history: seq<PriceRecord>, item: Item,
                             scraped: Result<Tokopedia.ScrapedProduct, Thrown>, o: ItemOracle)
    requires item.id in items && scraped.Failure? && RecordFailure !in o.faults
    ensures var r := ProcessItem(items, history, item, scraped, o);
      && r.items == items[item.id := items[item.id].(errorCount := items[item.id].errorCount + 1,
                                                      lastError := Some(CaughtMessage(scraped.error)))]
      && r.history == history && r.sent.None? && r.thrown.None?
  {
  }

  /**
   * A statement failing after the success update (ledger insert, ledger read or
   * the alert) lands in the same `catch`: the new price and check time stay,
   * and the error count, just reset to 0, becomes 1.
   */
  lemma ProcessLateFailure(items: map<ItemId, Item>, history: seq<PriceRecord>, item: Item,
                           scraped: Result<Tokopedia.ScrapedProduct, Thrown>, o: ItemOracle)
    requires item.id in items && scraped.Success?
    requires UpdateItem !in o.faults && RecordFailure !in o.faults
    requires TryProcess(items, history, item, scraped, o).thrown.Some?
    ensures var price := scraped.value.price;
      var e := TryProcess(items, history, item, scraped, o).thrown.value;
      var r := ProcessItem(items, history, item, scraped, o);
      && r.items == items[item.id := items[item.id].(currentPrice := price, lastChecked := o.now, errorCount := 1,
                                                      lastError := Some(CaughtMessage(e)))]
      && r.thrown.None?
  {
  }

  /** Whether the `try` block gets as far as the success update. */
  predicate Updates(scraped: Result<Tokopedia.ScrapedProduct, Thrown>, o: ItemOracle) {
    scraped.Success? && UpdateItem !in o.faults
  }

  /** What the `try` block hands to `sendMessage`. */
  function TrySent(item: Item, scraped: Result<Tokopedia.ScrapedProduct, Thrown>, o: ItemOracle): Option<Notice> {
    if Updates(scraped, o) && InsertHistory !in o.faults && SelectHistory !in o.faults
    then Alert(item, scraped.value.price)
    else None
  }

  /** What the `try` block throws: the first failing statement's error. */
  function TryThrown(item: Item, scraped: Result<Tokopedia.ScrapedProduct, Thrown>, o: ItemOracle): Option<Thrown> {
    if scraped.Failure? then Some(scraped.error)
    else if UpdateItem in o.faults then Some(o.faults[UpdateItem])
    else if InsertHistory in o.faults then Some(o.faults[InsertHistory])
    else if SelectHistory in o.faults then Some(o.faults[SelectHistory])
    else if TrySent(item, scraped, o).Some? && SendMessage in o.faults then Some(o.faults[SendMessage])
    else None
  }

  /**
   * The `try` block marks the item checked once the update runs, and what it
   * sends and throws is decided by the item, the scrape and the failures
   * alone, whatever the rest of the store holds.
   */
  lemma TryShape(items: map<ItemId, Item>, history: seq<PriceRecord>, item: Item,
                 scraped: Result<Tokopedia.ScrapedProduct, Thrown>, o: ItemOracle)
    ensures var t := TryProcess(items, history, item, scraped, o);
      && t.items == (if Updates(scraped, o) then MarkChecked(items, item.id, scraped.value.price, o.now) else items)
      && t.sent == TrySent(item, scraped, o)
      && t.thrown == TryThrown(item, scraped, o)
  {
  }

  /** The `try` block's effect on its own item, its message and what it throws depend only on that item's row. */
  lemma TryLocal(items: map<ItemId, Item>, history: seq<PriceRecord>,
                 items': map<ItemId, Item>, history': seq<PriceRecord>, item: Item,
                 scraped: Result<Tokopedia.ScrapedProduct, Thrown>, o: ItemOracle)
    requires item.id in items && item.id in items' && items[item.id] == items'[item.id]
    ensures var t := TryProcess(items, history, item, scraped, o);
      var t' := TryProcess(items', history', item, scraped, o);
      t.items[item.id] == t'.items[item.id] && t.sent == t'.sent && t.thrown == t'.thrown
  {
    TryShape(items, history, item, scraped, o);
    TryShape(items', history', item, scraped, o);
    if Updates(scraped, o) {
      var p := scraped.value.price;
      assert MarkChecked(items, item.id, p, o.now)[item.id] == MarkChecked(items', item.id, p, o.now)[item.id];
    }
  }

  /**
   * What an iteration does to its own item, and what it sends and throws,
   * depends only on that item's row: neither the other rows nor the ledger
   * play a part.
   */
  lemma ProcessLocal(items: map<ItemId, Item>, history: seq<PriceRecord>,
                     items': map<ItemId, Item>, history': seq<PriceRecord>, item: Item,
                     scraped: Result<Tokopedia.ScrapedProduct, Thrown>, o: ItemOracle)
    requires item.id in items && item.id in items' && items[item.id] == items'[item.id]
    ensures var r := ProcessItem(items, history, item, scraped, o);
      var r' := ProcessItem(items', history', item, scraped, o);
      r.items[item.id] == r'.items[item.id] && r.sent == r'.sent && r.thrown == r'.thrown
  {
    TryLocal(items, history, items', history', item, scraped, o);
  }

  /** Each iteration keeps the store consistent. */
  lemma ProcessKeepsConsistent(items: map<ItemId, Item>, history: seq<PriceRecord>, item: Item,
                               scraped: Result<Tokopedia.ScrapedProduct, Thrown>, o: ItemOracle)
    requires Consistent(items, history) && item.id in items
    ensures var r := ProcessItem(items, history, item, scraped, o);
      Consistent(r.items, r.history)
  {
    var r := ProcessItem(items, history, item, scraped, o);
    assert r.items[item.id].id == item.id by {
      assert items[item.id].id == item.id;
    }
  }

  // ---------------------------------------------------------------------------
  // The run
  // ---------------------------------------------------------------------------

  /** The state after the run, the messages sent in order, and what the handler rethrows. */
  datatype RunResult = RunResult(
    items: map<ItemId, Item>,
    history: seq<PriceRecord>,
    sent: seq<Notice>,
    error: Option<Thrown>)

  function Sent(n: Option<Notice>): seq<Notice> {
    if n.Some? then [n.value] else []
  }

  /** Processing `item` with what the world answers for it. */
  function Step(items: map<ItemId, Item>, history: seq<PriceRecord>, item: Item, scrape: Item -> Result<Tokopedia.ScrapedProduct, Thrown>, world: Item -> ItemOracle): StepResult {
    ProcessItem(items, history, item, scrape(item), world(item))
  }

  /** The `for` loop over the batch, stopping at the first error that escapes an iteration. */
  function RunBatch(items: map<ItemId, Item>, history: seq<PriceRecord>, batch: seq<Item>,
                    scrape: Item -> Result<Tokopedia.ScrapedProduct, Thrown>, world: Item -> ItemOracle): (r: RunResult)
    ensures r.items.Keys == items.Keys
    decreases |batch|
  {
    if batch == [] then RunResult(items, history, [], None)
    else
      var s := Step(items, history, batch[0], scrape, world);
      if s.thrown.Some? then RunResult(s.items, s.history, Sent(s.sent), s.thrown)
      else
        var rest := RunBatch(s.items, s.history, batch[1..], scrape, world);
        rest.(sent := Sent(s.sent) + rest.sent)
  }

  /** `scrapeTokopedia(item.url)` for every item, against what the world answers for it. */
  function Scrapes(world: Item -> ItemOracle): Item -> Result<Tokopedia.ScrapedProduct, Thrown> {
    (item: Item) => Scrape(item, world(item))
  }

  /** `scheduledHandler`: a failed query is rethrown; no due item means nothing happens. */
  function ScheduledRun(items: map<ItemId, Item>, history: seq<PriceRecord>,
                        query: Result<seq<Item>, Thrown>, world: Item -> ItemOracle): (r: RunResult)
    ensures r.items.Keys == items.Keys
    ensures query.Failure? ==> r.error == Some(query.error) && r.sent == []
  {
    var scrape := Scrapes(world);
    match query
    case Failure(e) => RunResult(items, history, [], Some(e))
    case Success(batch) =>
      if |batch| == 0 then RunResult(items, history, [], None)
      else RunBatch(items, history, batch, scrape, world)
  }

  predicate AllPresent(items: map<ItemId, Item>, batch: seq<Item>) {
    forall i :: 0 <= i < |batch| ==> batch[i].id in items
  }

  lemma TailInBatch(batch: seq<Item>)
    requires batch != []
    ensures forall k :: InBatch(k, batch[1..]) ==> InBatch(k, batch)
  {
    var tail := batch[1..];
    assert forall i :: 0 <= i < |tail| ==> tail[i] == batch[i + 1];
  }

  /** The batch without its first item keeps the properties the run lemmas need. */
  lemma TailFacts(items: map<ItemId, Item>, batch: seq<Item>)
    requires batch != [] && AllPresent(items, batch) && DistinctIds(batch)
    ensures AllPresent(items, batch[1..]) && DistinctIds(batch[1..])
    ensures !InBatch(batch[0].id, batch[1..])
  {
    var tail := batch[1..];
    assert forall i :: 0 <= i < |tail| ==> tail[i] == batch[i + 1];
  }

  /** With no due item the run changes nothing and sends nothing. */
  lemma NothingDueNothingDone(items: map<ItemId, Item>, history: seq<PriceRecord>, world: Item -> ItemOracle)
    ensures ScheduledRun(items, history, Success([]), world) == RunResult(items, history, [], None)
  {
  }

  /** The run changes no item outside the batch. */
  lemma {:induction false} RunTouchesOnlyBatch(items: map<ItemId, Item>, history: seq<PriceRecord>, batch: seq<Item>,
                                               scrape: Item -> Result<Tokopedia.ScrapedProduct, Thrown>, world: Item -> ItemOracle)
    ensures var r := RunBatch(items, history, batch, scrape, world);
      forall k :: k in items && !InBatch(k, batch) ==> r.items[k] == items[k]
    decreases |batch|
  {
    if batch != [] {
      var s := Step(items, history, batch[0], scrape, world);
      assert InBatch(batch[0].id, batch);
      if s.thrown.None? {
        TailInBatch(batch);
        RunTouchesOnlyBatch(s.items, s.history, batch[1..], scrape, world);
      }
    }
  }

  /**
   * The run only appends to the ledger, each new row for an item of the batch,
   * and sends at most one message per item.
   */
  lemma {:induction false} RunAppendsOnly(items: map<ItemId, Item>, history: seq<PriceRecord>, batch: seq<Item>,
                                          scrape: Item -> Result<Tokopedia.ScrapedProduct, Thrown>, world: Item -> ItemOracle)
    ensures var r := RunBatch(items, history, batch, scrape, world);
      && history <= r.history
      && (forall i :: |history| <= i < |r.history| ==> InBatch(r.history[i].itemId, batch))
      && |r.sent| <= |batch|
    decreases |batch|
  {
    if batch != [] {
      var s := Step(items, history, batch[0], scrape, world);
      assert InBatch(batch[0].id, batch);
      if s.thrown.None? {
        TailInBatch(batch);
        RunAppendsOnly(s.items, s.history, batch[1..], scrape, world);
        var r := RunBatch(items, history, batch, scrape, world);
        forall i | |history| <= i < |r.history| ensures InBatch(r.history[i].itemId, batch) {
          if i < |s.history| {
            assert r.history[i] == s.history[i];
          }
        }
      }
    }
  }

  /** The run keeps the store consistent. */
  lemma {:induction false} RunKeepsConsistent(items: map<ItemId, Item>, history: seq<PriceRecord>, batch: seq<Item>,
                                              scrape: Item -> Result<Tokopedia.ScrapedProduct, Thrown>, world: Item -> ItemOracle)
    requires Consistent(items, history) && AllPresent(items, batch)
    ensures var r := RunBatch(items, history, batch, scrape, world);
      Consistent(r.items, r.history)
    decreases |batch|
  {
    if batch != [] {
      var b := batch[0];
      var s := Step(items, history, b, scrape, world);
      ProcessKeepsConsistent(items, history, b, scrape(b), world(b));
      if s.thrown.None? {
        assert forall i :: 0 <= i < |batch[1..]| ==> batch[1..][i] == batch[i + 1];
        RunKeepsConsistent(s.items, s.history, batch[1..], scrape, world);
      }
    }
  }

  /** The run goes through the whole batch unless recording some item's failure itself fails. */
  lemma {:induction false} RunCompletes(items: map<ItemId, Item>, history: seq<PriceRecord>, batch: seq<Item>,
                                        scrape: Item -> Result<Tokopedia.ScrapedProduct, Thrown>, world: Item -> ItemOracle)
    requires forall i :: 0 <= i < |batch| ==> RecordFailure !in world(batch[i]).faults
    ensures RunBatch(items, history, batch, scrape, world).error.None?
    decreases |batch|
  {
    if batch != [] {
      var s := Step(items, history, batch[0], scrape, world);
      assert forall i :: 0 <= i < |batch[1..]| ==> batch[1..][i] == batch[i + 1];
      RunCompletes(s.items, s.history, batch[1..], scrape, world);
    }
  }

  /** The messages each batch item would send if processed alone on the given state, in batch order. */
  function AloneSent(items: map<ItemId, Item>, history: seq<PriceRecord>, batch: seq<Item>,
                     scrape: Item -> Result<Tokopedia.ScrapedProduct, Thrown>, world: Item -> ItemOracle): seq<Notice>
  {
    if batch == [] then []
    else Sent(Step(items, history, batch[0], scrape, world).sent) + AloneSent(items, history, batch[1..], scrape, world)
  }

  lemma {:induction false} AloneSentLocal(items: map<ItemId, Item>, history: seq<PriceRecord>,
                                          items': map<ItemId, Item>, history': seq<PriceRecord>,
                                          batch: seq<Item>, scrape: Item -> Result<Tokopedia.ScrapedProduct, Thrown>, world: Item -> ItemOracle)
    requires forall i :: 0 <= i < |batch| ==>
      batch[i].id in items && batch[i].id in items' && items[batch[i].id] == items'[batch[i].id]
    ensures AloneSent(items, history, batch, scrape, world) == AloneSent(items', history', batch, scrape, world)
    decreases |batch|
  {
    if batch != [] {
      var b := batch[0];
      ProcessLocal(items, history, items', history', b, scrape(b), world(b));
      assert forall i :: 0 <= i < |batch[1..]| ==> batch[1..][i] == batch[i + 1];
      AloneSentLocal(items, history, items', history', batch[1..], scrape, world);
    }
  }

  /**
   * Failure isolation: when the run completes, every item of the batch ends
   * exactly as if it had been processed alone on the initial state, whatever
   * happened to the others.
   */
  lemma {:induction false} RunRowsAsAlone(items: map<ItemId, Item>, history: seq<PriceRecord>, batch: seq<Item>,
                                          scrape: Item -> Result<Tokopedia.ScrapedProduct, Thrown>, world: Item -> ItemOracle)
    requires AllPresent(items, batch) && DistinctIds(batch)
    requires RunBatch(items, history, batch, scrape, world).error.None?
    ensures var r := RunBatch(items, history, batch, scrape, world);
      forall i :: 0 <= i < |batch| ==>
        r.items[batch[i].id] == Step(items, history, batch[i], scrape, world).items[batch[i].id]
    decreases |batch|
  {
    if batch != [] {
      var b := batch[0];
      var s := Step(items, history, b, scrape, world);
      var tail := batch[1..];
      TailFacts(items, batch);
      RunRowsAsAlone(s.items, s.history, tail, scrape, world);
      RunTouchesOnlyBatch(s.items, s.history, tail, scrape, world);
      var r := RunBatch(items, history, batch, scrape, world);
      forall i | 0 <= i < |batch|
        ensures r.items[batch[i].id] == Step(items, history, batch[i], scrape, world).items[batch[i].id]
      {
        if i > 0 {
          var c := batch[i];
          assert tail[i - 1] == c;
          ProcessLocal(items, history, s.items, s.history, c, scrape(c), world(c));
        }
      }
    }
  }

  /** Order: when the run completes, its messages are those of the items processed alone, in batch order. */
  lemma {:induction false} RunSendsAsAlone(items: map<ItemId, Item>, history: seq<PriceRecord>, batch: seq<Item>,
                                           scrape: Item -> Result<Tokopedia.ScrapedProduct, Thrown>, world: Item -> ItemOracle)
    requires AllPresent(items, batch) && DistinctIds(batch)
    requires RunBatch(items, history, batch, scrape, world).error.None?
    ensures RunBatch(items, history, batch, scrape, world).sent == AloneSent(items, history, batch, scrape, world)
    decreases |batch|
  {
    if batch != [] {
      var b := batch[0];
      var s := Step(items, history, b, scrape, world);
      var tail := batch[1..];
      TailFacts(items, batch);
      RunSendsAsAlone(s.items, s.history, tail, scrape, world);
      assert forall i :: 0 <= i < |tail| ==> tail[i].id != b.id && tail[i].id in items;
      AloneSentLocal(items, history, s.items, s.history, tail, scrape, world);
    }
  }

  /**
   * At most one message per item, aborted runs included: the messages of any
   * run are those of the items of a prefix of the batch, each processed alone
   * on the initial state, in batch order (the whole batch when the run
   * completes; up to the aborting item otherwise).
   */
  lemma {:induction false} RunSendsPrefixAlone(items: map<ItemId, Item>, history: seq<PriceRecord>, batch: seq<Item>,
                                               scrape: Item -> Result<Tokopedia.ScrapedProduct, Thrown>, world: Item -> ItemOracle)
    requires AllPresent(items, batch) && DistinctIds(batch)
    ensures var sent := RunBatch(items, history, batch, scrape, world).sent;
      exists j :: 0 <= j <= |batch| && sent == AloneSent(items, history, batch[..j], scrape, world)
    decreases |batch|
  {
    var r := RunBatch(items, history, batch, scrape, world);
    if batch == [] {
      assert r.sent == AloneSent(items, history, batch[..0], scrape, world);
    } else {
      var b := batch[0];
      var s := Step(items, history, b, scrape, world);
      assert batch[..1] == [b] && [b][1..] == [];
      if s.thrown.Some? {
        assert r.sent == AloneSent(items, history, batch[..1], scrape, world);
      } else {
        var tail := batch[1..];
        TailFacts(items, batch);
        RunSendsPrefixAlone(s.items, s.history, tail, scrape, world);
        var j :| 0 <= j <= |tail| &&
          RunBatch(s.items, s.history, tail, scrape, world).sent == AloneSent(s.items, s.history, tail[..j], scrape, world);
        var front := tail[..j];
        PrefixOfTail(items, batch, j);
        AloneSentLocal(items, history, s.items, s.history, front, scrape, world);
        assert r.sent == AloneSent(items, history, batch[..j + 1], scrape, world);
      }
    }
  }

  /** The first `j + 1` items are the head, then the first `j` of the tail, none of which shares the head's id. */
  lemma PrefixOfTail(items: map<ItemId, Item>, batch: seq<Item>, j: nat)
    requires batch != [] && AllPresent(items, batch) && DistinctIds(batch)
    requires j < |batch|
    ensures var front := batch[1..][..j];
      && batch[..j + 1] != [] && batch[..j + 1][0] == batch[0] && batch[..j + 1][1..] == front
      && forall i :: 0 <= i < |front| ==> front[i].id != batch[0].id && front[i].id in items
  {
    var front := batch[1..][..j];
    assert forall i :: 0 <= i < |front| ==> front[i] == batch[i + 1];
    assert batch[..j + 1][1..] == front;
  }

  /** An item whose failure cannot be recorded aborts the run, at that item or before it. */
  lemma {:induction false} RunAbortsOn(items: map<ItemId, Item>, history: seq<PriceRecord>, batch: seq<Item>,
                                       scrape: Item -> Result<Tokopedia.ScrapedProduct, Thrown>, world: Item -> ItemOracle, i: nat)
    requires AllPresent(items, batch) && DistinctIds(batch)
    requires i < |batch| && RecordFailure in world(batch[i]).faults
    requires TryProcess(items, history, batch[i], scrape(batch[i]), world(batch[i])).thrown.Some?
    ensures RunBatch(items, history, batch, scrape, world).error.Some?
    decreases |batch|
  {
    var b := batch[0];
    var s := Step(items, history, b, scrape, world);
    if i > 0 && s.thrown.None? {
      var tail := batch[1..];
      var c := batch[i];
      TailFacts(items, batch);
      assert tail[i - 1] == c;
      TryLocal(items, history, s.items, s.history, c, scrape(c), world(c));
      RunAbortsOn(s.items, s.history, tail, scrape, world, i - 1);
    }
  }

  /**
   * An item whose scrape fails in a completed run ends with its error count up
   * by one and the scraper's message, its price and check time unchanged, so
   * it stays due and is retried by the next run.
   */
  lemma RunFailedItem(items: map<ItemId, Item>, history: seq<PriceRecord>, batch: seq<Item>,
                      scrape: Item -> Result<Tokopedia.ScrapedProduct, Thrown>, world: Item -> ItemOracle, i: nat, startOfDay: int)
    requires AllPresent(items, batch) && DistinctIds(batch)
    requires RunBatch(items, history, batch, scrape, world).error.None?
    requires i < |batch| && IsDue(items[batch[i].id], startOfDay)
    requires scrape(batch[i]).Failure?
    ensures var before := items[batch[i].id];
      var after := RunBatch(items, history, batch, scrape, world).items[batch[i].id];
      && after.errorCount == before.errorCount + 1
      && after.currentPrice == before.currentPrice && after.lastChecked == before.lastChecked
      && after.lastError == Some(CaughtMessage(scrape(batch[i]).error))
      && IsDue(after, startOfDay)
  {
    var c := batch[i];
    var o := world(c);
    RunRowsAsAlone(items, history, batch, scrape, world);
    if RecordFailure in o.faults {
      RunAbortsOn(items, history, batch, scrape, world, i);
    }
    ProcessScrapeFailure(items, history, c, scrape(c), o);
  }

  /**
   * The same for the scheduled handler with the Tokopedia scraper: a failed
   * scrape is a `ScrapingError` for the item's URL, and its message is what
   * lands in `lastError`.
   */
  lemma ScheduledFailedItem(items: map<ItemId, Item>, history: seq<PriceRecord>, now: int,
                            batch: seq<Item>, world: Item -> ItemOracle, i: nat)
    requires IsDueBatch(items, StartOfDay(now), batch)
    requires ScheduledRun(items, history, Success(batch), world).error.None?
    requires i < |batch| && Scrape(batch[i], world(batch[i])).Failure?
    ensures var e := Scrape(batch[i], world(batch[i])).error;
      var after := ScheduledRun(items, history, Success(batch), world).items[batch[i].id];
      && e.ScrapingError? && e.url == batch[i].url
      && after.errorCount == batch[i].errorCount + 1
      && after.currentPrice == batch[i].currentPrice && after.lastChecked == batch[i].lastChecked
      && after.lastError == Some(e.message)
      && IsDue(after, StartOfDay(now))
  {
    var scrape := Scrapes(world);
    assert scrape(batch[i]) == Scrape(batch[i], world(batch[i]));
    assert AllPresent(items, batch);
    RunFailedItem(items, history, batch, scrape, world, i, StartOfDay(now));
  }

  // ---------------------------------------------------------------------------
  // The handler
  // ---------------------------------------------------------------------------

  /** The run's result with `sent` sent before it. */
  function After(sent: seq<Notice>, r: RunResult): RunResult {
    r.(sent := sent + r.sent)
  }

  /** Unfolding the run by one item that does not abort it. */
  lemma RunAfterStep(items: map<ItemId, Item>, history: seq<PriceRecord>, batch: seq<Item>,
                     scrape: Item -> Result<Tokopedia.ScrapedProduct, Thrown>, world: Item -> ItemOracle, sent: seq<Notice>)
    requires batch != [] && Step(items, history, batch[0], scrape, world).thrown.None?
    ensures var s := Step(items, history, batch[0], scrape, world);
      After(sent, RunBatch(items, history, batch, scrape, world))
        == After(sent + Sent(s.sent), RunBatch(s.items, s.history, batch[1..], scrape, world))
  {
  }

  /**
   * The per-item `try` block on the database: `message` is what was handed to
   * `sendMessage`, `thrown` what reached the `catch`.
   */
  method TryItem(db: Database, item: Item, scrape: Item -> Result<Tokopedia.ScrapedProduct, Thrown>, o: ItemOracle)
    returns (message: Option<Notice>, thrown: Option<Thrown>)
    requires item.id in db.items
    modifies db
    ensures db.users == old(db.users)
    ensures TryProcess(old(db.items), old(db.history), item, scrape(item), o)
         == StepResult(db.items, db.history, message, thrown)
  {
    message, thrown := None, None;
    var scraped := scrape(item);
    if scraped.Failure? {
      thrown := Some(scraped.error);
      return;
    }
    if UpdateItem in o.faults {
      thrown := Some(o.faults[UpdateItem]);
      return;
    }
    db.items := MarkChecked(db.items, item.id, scraped.value.price, o.now);
    if InsertHistory in o.faults {
      thrown := Some(o.faults[InsertHistory]);
      return;
    }
    db.history := db.history + [PriceRecord(item.id, scraped.value.price, o.now)];
    if SelectHistory in o.faults {
      thrown := Some(o.faults[SelectHistory]);
      return;
    }
    var minPrice := MinPrice(RecordsOf(db.history, item.id), scraped.value.price);
    message := Decide(item, scraped.value.price, minPrice);
    if message.Some? && SendMessage in o.faults {
      thrown := Some(o.faults[SendMessage]);
    }
  }

  /**
   * One iteration of the loop: the `try` block and its `catch`. `escaped` is
   * what the `catch` itself threw.
   */
  method CheckItem(db: Database, item: Item, scrape: Item -> Result<Tokopedia.ScrapedProduct, Thrown>, o: ItemOracle)
    returns (message: Option<Notice>, escaped: Option<Thrown>)
    requires db.Valid() && item.id in db.items
    modifies db
    ensures db.Valid() && db.users == old(db.users)
    ensures ProcessItem(old(db.items), old(db.history), item, scrape(item), o)
         == StepResult(db.items, db.history, message, escaped)
  {
    ProcessKeepsConsistent(db.items, db.history, item, scrape(item), o);
    var thrown;
    message, thrown := TryItem(db, item, scrape, o);
    escaped := None;
    if thrown.Some? {
      if RecordFailure in o.faults {
        escaped := Some(o.faults[RecordFailure]);
        return;
      }
      db.items := MarkFailed(db.items, item.id, CaughtMessage(thrown.value));
    }
  }

  /**
   * The `for` loop over the selected batch, each item scraped with `scrape`:
   * `sent` lists the `sendMessage` calls in order, `error` is what escaped an
   * iteration and ended the loop.
   */
  method RunItems(db: Database, batch: seq<Item>, scrape: Item -> Result<Tokopedia.ScrapedProduct, Thrown>,
                  world: Item -> ItemOracle)
    returns (sent: seq<Notice>, error: Option<Thrown>)
    requires db.Valid() && AllPresent(db.items, batch)
    modifies db
    ensures db.Valid() && db.users == old(db.users)
    ensures RunBatch(old(db.items), old(db.history), batch, scrape, world)
         == RunResult(db.items, db.history, sent, error)
  {
    sent, error := [], None;
    for k := 0 to |batch|
      invariant db.Valid() && db.users == old(db.users)
      invariant db.items.Keys == old(db.items).Keys
      invariant RunBatch(old(db.items), old(db.history), batch, scrape, world)
             == After(sent, RunBatch(db.items, db.history, batch[k..], scrape, world))
    {
      var item := batch[k];
      ghost var items0, history0 := db.items, db.history;
      assert batch[k..][0] == item && batch[k..][1..] == batch[k + 1..];
      var message, escaped := CheckItem(db, item, scrape, world(item));
      if escaped.Some? {
        return sent + Sent(message), escaped;
      }
      RunAfterStep(items0, history0, batch[k..], scrape, world, sent);
      sent := sent + Sent(message);
    }
    assert batch[|batch|..] == [];
  }

  /**
   * `scheduledHandler`: `now` is the clock at the start, `query` what the
   * selection returned (or threw), `world` what each item's processing meets.
   * `sent` lists the `sendMessage` calls in order; `error` is what the handler
   * rethrows.
   */
  method ScheduledHandler(db: Database, now: int, query: Result<seq<Item>, Thrown>, world: Item -> ItemOracle)
    returns (sent: seq<Notice>, error: Option<Thrown>)
    requires db.Valid()
    requires query.Success? ==> IsDueBatch(db.items, StartOfDay(now), query.value)
    modifies db
    ensures db.Valid()
    ensures db.users == old(db.users)
    ensures var r := ScheduledRun(old(db.items), old(db.history), query, world);
      db.items == r.items && db.history == r.history && sent == r.sent && error == r.error
  {
    if query.Failure? {
      return [], Some(query.error);
    }
    var batch := query.value;
    if |batch| == 0 {
      return [], None;
    }
    assert AllPresent(db.items, batch);
    sent, error := RunItems(db, batch, Scrapes(world), world);
  }
}
