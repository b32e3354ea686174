/**
 * The persistent state the handlers read and write (src/db/schema.ts): the
 * registered users, the `items` table keyed by item id, and the
 * `price_history` ledger in insertion order. Columns the handlers never look
 * at (user names, creation times) are not modelled.
 */
module Schema {
  import opened Wrappers

  type ItemId = string
  type UserId = string

  /**
   * A row of `items`. Prices are the scraped numbers, read as exact decimals;
   * `lastChecked` is in milliseconds since the epoch; the nullable
   * `error_count` column is taken with its default 0.
   */
  datatype Item = Item(
    id: ItemId,
    shortId: Option<string>,
    url: string,
    title: string,
    currentPrice: real,
    targetPrice: Option<real>,
    lastChecked: int,
    errorCount: nat,
    lastError: Option<string>,
    userId: UserId)

  /** A row of `price_history`. */
  datatype PriceRecord = PriceRecord(itemId: ItemId, price: real, recordedAt: int)

  /** Every row is filed under its own id. */
  predicate WellKeyed(items: map<ItemId, Item>) {
    forall k :: k in items ==> items[k].id == k
  }

  /** Every ledger row refers to an existing item (the foreign key on `item_id`). */
  predicate LedgerReferencesItems(items: map<ItemId, Item>, history: seq<PriceRecord>) {
    forall i :: 0 <= i < |history| ==> history[i].itemId in items
  }

  predicate Consistent(items: map<ItemId, Item>, history: seq<PriceRecord>) {
    WellKeyed(items) && LedgerReferencesItems(items, history)
  }

  /** JavaScript truthiness of a nullable price: present and not zero. */
  predicate Truthy(price: Option<real>) {
    price.Some? && price.value != 0.0
  }

  /** `select().from(priceHistory).where(eq(priceHistory.itemId, id))`. */
  function RecordsOf(history: seq<PriceRecord>, id: ItemId): seq<PriceRecord> {
    if history == [] then []
    else (if history[0].itemId == id then [history[0]] else []) + RecordsOf(history[1..], id)
  }

  /** `RecordsOf` keeps exactly the rows of the item, in ledger order. */
  lemma {:induction false} RecordsOfSelects(history: seq<PriceRecord>, id: ItemId)
    ensures |RecordsOf(history, id)| <= |history|
    ensures forall x :: x in RecordsOf(history, id) <==> x in history && x.itemId == id
  {
    if history != [] {
      RecordsOfSelects(history[1..], id);
      assert history == [history[0]] + history[1..];
    }
  }

  /** The database the handlers share. */
  class Database {
    var users: set<UserId>
    var items: map<ItemId, Item>
    var history: seq<PriceRecord>

    predicate Valid()
      reads this
    {
      Consistent(items, history)
    }

    constructor ()
      ensures Valid() && users == {} && items == map[] && history == []
    {
      users := {};
      items := map[];
      history := [];
    }
  }
}
