/**
 The in-memory inventory store: a mapping from item name to integer quantity,
 iterated in insertion order, and the four operations on it. The process-wide
 mutable mapping becomes an explicit `Stock` value that every operation takes
 and returns; the console messages of the error paths become a `Status` tag.
 */
module Inventory {
  import opened Optional
  import opened OrderedDict

  /** A value passed where the source checks `isinstance(_, str)` or
      `isinstance(_, int)`; every other Python value is `PyOther`. */
  datatype PyValue = PyStr(s: string) | PyInt(i: int) | PyOther

  /** One line of the caller's log, "<timestamp>: Added <qty> of <item>";
      the timestamp is not modelled. */
  datatype LogEntry = Added(qty: int, item: string)

  /** What happened: the source prints a message on each error path and
      otherwise returns nothing. */
  datatype Status = Ok | InvalidTypes | EmptyName | MissingItem

  type Stock = Dict

  datatype AddOutcome = AddOutcome(stock: Stock, logs: seq<LogEntry>, status: Status)

  datatype RemoveOutcome = RemoveOutcome(stock: Stock, status: Status)

  /** The store at process start. */
  const EmptyStock: Stock := Empty

  /** The default threshold of `check_lowitems`. */
  const DefaultThreshold := 5

  /** `get_qty`: the stored quantity; `None` stands for the `KeyError` the
      source lets escape when the item is absent. */
  function GetQty(stock: Stock, item: string): (r: Option<int>)
    requires Valid(stock)
    ensures r.Some? <==> item in stock.keys
    ensures r.Some? ==> item in stock.values && r.value == stock.values[item]
  {
    if item in stock.values then Some(stock.values[item]) else None
  }

  /** `add_item`: rejects a non-`str` item or non-`int` quantity, then an
      empty name, without touching the store or the log; otherwise adds `qty`
      (which may be negative) to the item's quantity, starting from 0 for a
      new item, and appends one log entry. */
  function AddItem(stock: Stock, logs: seq<LogEntry>, item: PyValue, qty: PyValue): (r: AddOutcome)
    requires Valid(stock)
    ensures Valid(r.stock)
    ensures !(item.PyStr? && qty.PyInt?) ==> r == AddOutcome(stock, logs, InvalidTypes)
    ensures item == PyStr("") && qty.PyInt? ==> r == AddOutcome(stock, logs, EmptyName)
    ensures item.PyStr? && item.s != "" && qty.PyInt? ==>
      && r.status == Ok
      && r.stock.values ==
         stock.values[item.s := (if item.s in stock.keys then stock.values[item.s] else 0) + qty.i]
      && r.stock.keys == (if item.s in stock.keys then stock.keys else stock.keys + [item.s])
      && r.logs == logs + [Added(qty.i, item.s)]
  {
    if !item.PyStr? || !qty.PyInt? then
      AddOutcome(stock, logs, InvalidTypes)
    else if item.s == "" then
      AddOutcome(stock, logs, EmptyName)
    else
      var current := match GetQty(stock, item.s) case Some(q) => q case None => 0;
      AddOutcome(Put(stock, item.s, current + qty.i), logs + [Added(qty.i, item.s)], Ok)
  }

  /** `remove_item`: an absent item is reported and nothing changes (the
      `KeyError` is caught); otherwise the quantity drops by `qty`, and the
      entry is deleted when the result is zero or below. */
  function RemoveItem(stock: Stock, item: string, qty: int): (r: RemoveOutcome)
    requires Valid(stock)
    ensures Valid(r.stock)
    ensures item !in stock.keys ==> r == RemoveOutcome(stock, MissingItem)
    ensures item in stock.keys && stock.values[item] - qty <= 0 ==>
      && r.status == Ok
      && r.stock.values == stock.values - {item}
      && r.stock.keys == Without(stock.keys, item)
    ensures item in stock.keys && stock.values[item] - qty > 0 ==>
      && r.status == Ok
      && r.stock.values == stock.values[item := stock.values[item] - qty]
      && r.stock.keys == stock.keys
    ensures item !in r.stock.values || r.stock.values[item] > 0
  {
    match GetQty(stock, item)
    case None => RemoveOutcome(stock, MissingItem)
    case Some(q) =>
      if q - qty <= 0 then RemoveOutcome(Delete(stock, item), Ok)
      else RemoveOutcome(Put(stock, item, q - qty), Ok)
  }

  /** The result of `check_lowitems(threshold)`: exactly the items whose
      quantity is below `threshold`, in the store's iteration order. Being in
      strictly increasing order, such a list names each item once. */
  ghost predicate IsLowItems(stock: Stock, threshold: int, items: seq<string>): (r: bool)
    ensures r ==> Distinct(items)
  {
    && (forall x :: x in items <==> x in stock.values && stock.values[x] < threshold)
    && InKeyOrder(stock, items)
  }

  /** `check_lowitems`: one pass over the store in iteration order, keeping
      the names whose quantity is strictly below `threshold`. */
  method CheckLowItems(stock: Stock, threshold: int) returns (result: seq<string>)
    requires Valid(stock)
    ensures IsLowItems(stock, threshold, result)
  {
    result := [];
    var n := 0;
    while n < |stock.keys|
      invariant 0 <= n <= |stock.keys|
      invariant forall x :: x in result <==>
        x in stock.keys[..n] && stock.values[x] < threshold
      invariant forall x :: x in result ==> IndexOf(stock.keys, x).Some? && IndexOf(stock.keys, x).value < n
      invariant InKeyOrder(stock, result)
    {
      var item := stock.keys[n];
      IndexOfDistinct(stock.keys, n);
      if stock.values[item] < threshold {
        result := result + [item];
      }
      assert stock.keys[..n + 1] == stock.keys[..n] + [item];
      n := n + 1;
    }
    assert stock.keys[..n] == stock.keys;
  }

  /** `check_lowitems()` with the default threshold: the items holding fewer
      than 5. */
  method CheckLowItemsDefault(stock: Stock) returns (result: seq<string>)
    requires Valid(stock)
    ensures IsLowItems(stock, 5, result)
  {
    result := CheckLowItems(stock, DefaultThreshold);
  }

  /** The store at process start holds nothing: every lookup fails, every
      removal reports a missing item, and the low-items report is empty. */
  lemma EmptyStockHoldsNothing(item: string, qty: int, threshold: int)
    ensures Valid(EmptyStock)
    ensures GetQty(EmptyStock, item) == None
    ensures RemoveItem(EmptyStock, item, qty) == RemoveOutcome(EmptyStock, MissingItem)
    ensures IsLowItems(EmptyStock, threshold, [])
  {
  }
}
