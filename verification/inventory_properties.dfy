/**
 Properties that relate several calls of the inventory operations: the
 low-stock report is determined by its specification, repeated additions
 accumulate, removal never leaves a non-positive entry behind, a deleted item
 re-enters at the end of the order, and the demonstration run of `main`.
 */
module InventoryProperties {
  import opened Optional
  import opened OrderedDict
  import opened Inventory

  /** Two key lists with the same members, both in iteration order, are equal. */
  lemma {:induction false} OrderedListsEqual(d: Dict, a: seq<string>, b: seq<string>)
    requires forall x :: x in a <==> x in b
    requires forall x :: x in a ==> x in d.keys
    requires InKeyOrder(d, a) && InKeyOrder(d, b)
    ensures a == b
  {
    assert |a| > 0 ==> a[0] in b;
    assert |b| > 0 ==> b[0] in a;
    if |a| > 0 && |b| > 0 {
      assert a[0] == b[0] by {
        assert a[0] in d.keys && b[0] in d.keys;
        var k :| 0 <= k < |a| && a[k] == b[0];
        assert k == 0 || Before(d, a[0], a[k]);
        var j :| 0 <= j < |b| && b[j] == a[0];
        assert j == 0 || Before(d, b[0], b[j]);
      }
      forall x
        ensures x in a[1..] <==> x in b[1..]
      {
        if x in a[1..] {
          var k :| 1 <= k < |a| && a[k] == x;
          assert Before(d, a[0], a[k]);
          assert a[k] in a;
          var j :| 0 <= j < |b| && b[j] == x;
          assert b[1..][j - 1] == x;
        }
        if x in b[1..] {
          var k :| 1 <= k < |b| && b[k] == x;
          assert Before(d, b[0], b[k]);
          assert b[k] in b;
          var j :| 0 <= j < |a| && a[j] == x;
          assert a[1..][j - 1] == x;
        }
      }
      OrderedListsEqual(d, a[1..], b[1..]);
      assert a == [a[0]] + a[1..] && b == [b[0]] + b[1..];
    }
  }

  /** The low-stock specification admits exactly one list, so whatever
      satisfies it is the report `check_lowitems` prints. */
  lemma LowItemsUnique(stock: Stock, threshold: int, a: seq<string>, b: seq<string>)
    requires Valid(stock)
    requires IsLowItems(stock, threshold, a) && IsLowItems(stock, threshold, b)
    ensures a == b
  {
    OrderedListsEqual(stock, a, b);
  }

  function Sum(qtys: seq<int>): int
  {
    if |qtys| == 0 then 0 else qtys[0] + Sum(qtys[1..])
  }

  /** `add_item(item, q)` for each `q` of `qtys` in turn, sharing one log. */
  function AddEach(stock: Stock, logs: seq<LogEntry>, item: string, qtys: seq<int>): (r: (Stock, seq<LogEntry>))
    requires Valid(stock)
    ensures Valid(r.0)
    decreases |qtys|
  {
    if |qtys| == 0 then (stock, logs)
    else
      var o := AddItem(stock, logs, PyStr(item), PyInt(qtys[0]));
      AddEach(o.stock, o.logs, item, qtys[1..])
  }

  /** Adding a series of quantities to a named item leaves it at its former
      quantity (0 if absent) plus their sum, keeps every other item as it
      was, keeps the iteration order apart from appending a new item, and
      logs one entry per addition. */
  lemma {:induction false} AddAccumulates(stock: Stock, logs: seq<LogEntry>, item: string, qtys: seq<int>)
    requires Valid(stock) && item != "" && |qtys| > 0
    ensures var (after, afterLogs) := AddEach(stock, logs, item, qtys);
      && after.values ==
         stock.values[item := (if item in stock.values then stock.values[item] else 0) + Sum(qtys)]
      && after.keys == (if item in stock.keys then stock.keys else stock.keys + [item])
      && |afterLogs| == |logs| + |qtys|
    decreases |qtys|
  {
    var o := AddItem(stock, logs, PyStr(item), PyInt(qtys[0]));
    if |qtys| > 1 {
      AddAccumulates(o.stock, o.logs, item, qtys[1..]);
    }
  }

  /** `get_qty` after `add_item`: the added item reads as its former
      quantity (0 if absent) plus `qty`, and every other item reads as before. */
  lemma AddThenGet(stock: Stock, logs: seq<LogEntry>, item: string, qty: int, other: string)
    requires Valid(stock) && item != ""
    ensures var after := AddItem(stock, logs, PyStr(item), PyInt(qty)).stock;
      && GetQty(after, item) == Some((match GetQty(stock, item) case Some(q) => q case None => 0) + qty)
      && (other != item ==> GetQty(after, other) == GetQty(stock, other))
  {
  }

  /** `get_qty` after `remove_item`: the item is gone or holds its former
      quantity less `qty`, and every other item reads as before. */
  lemma RemoveThenGet(stock: Stock, item: string, qty: int, other: string)
    requires Valid(stock)
    ensures var after := RemoveItem(stock, item, qty).stock;
      && (match GetQty(stock, item)
          case None => GetQty(after, item).None?
          case Some(q) => GetQty(after, item) == (if q - qty <= 0 then None else Some(q - qty)))
      && (other != item ==> GetQty(after, other) == GetQty(stock, other))
  {
  }

  /** Removing what was just added undoes the addition, order included,
      provided the item was absent or held a positive quantity before. */
  lemma AddThenRemoveRestores(stock: Stock, logs: seq<LogEntry>, item: string, qty: int)
    requires Valid(stock) && item != "" && qty > 0
    requires item in stock.values ==> stock.values[item] > 0
    ensures var added := AddItem(stock, logs, PyStr(item), PyInt(qty)).stock;
            RemoveItem(added, item, qty).stock == stock
  {
    var added := AddItem(stock, logs, PyStr(item), PyInt(qty)).stock;
    var removed := RemoveItem(added, item, qty).stock;
    if item in stock.keys {
      var q := stock.values[item];
      assert added.values == stock.values[item := q + qty];
      assert removed.values == added.values[item := q];
      UpdateRestores(stock.values, item, q + qty);
    } else {
      assert added.values == stock.values[item := qty];
      assert removed.values == added.values - {item};
      InsertRemoveRestores(stock.values, item, qty);
      WithoutAbsent(stock.keys, item);
    }
  }

  lemma UpdateRestores(m: map<string, int>, k: string, v: int)
    requires k in m
    ensures m[k := v][k := m[k]] == m
  {
  }

  lemma InsertRemoveRestores(m: map<string, int>, k: string, v: int)
    requires k !in m
    ensures m[k := v] - {k} == m
  {
  }

  /** Every stored quantity is strictly positive (intended, not enforced). */
  ghost predicate AllPositive(stock: Stock)
  {
    forall k :: k in stock.values ==> stock.values[k] > 0
  }

  /** `remove_item` keeps a store of positive quantities positive, whatever
      amount is removed. */
  lemma RemoveKeepsPositive(stock: Stock, item: string, qty: int)
    requires Valid(stock) && AllPositive(stock)
    ensures AllPositive(RemoveItem(stock, item, qty).stock)
  {
  }

  /** `add_item` with a positive quantity keeps a store of positive
      quantities positive. */
  lemma AddPositiveKeepsPositive(stock: Stock, logs: seq<LogEntry>, item: PyValue, qty: int)
    requires Valid(stock) && AllPositive(stock) && qty > 0
    ensures AllPositive(AddItem(stock, logs, item, PyInt(qty)).stock)
  {
  }

  /** `add_item` admits a negative quantity, so a stored quantity can be
      negative: adding -2 of "banana" to the empty store stores -2. */
  lemma NegativeAddAdmitted()
    ensures var o := AddItem(EmptyStock, [], PyStr("banana"), PyInt(-2));
            o.status == Ok && o.stock.values == map["banana" := -2] && !AllPositive(o.stock)
  {
    var o := AddItem(EmptyStock, [], PyStr("banana"), PyInt(-2));
    assert "banana" in o.stock.values;
  }

  /** An item that `remove_item` deletes goes to the end of the iteration
      order when it is added again. */
  lemma ReAddGoesLast(stock: Stock, item: string, qty: int, back: int)
    requires Valid(stock) && item != ""
    requires item in stock.keys && stock.values[item] - qty <= 0
    ensures var removed := RemoveItem(stock, item, qty).stock;
            AddItem(removed, [], PyStr(item), PyInt(back)).stock.keys == Without(stock.keys, item) + [item]
  {
    var removed := RemoveItem(stock, item, qty).stock;
    assert item !in removed.keys;
  }

  /** The sequence of calls in `main`, up to the low-stock report: two adds
      (one of them negative), an add with wrong argument types, a partial
      removal and a removal of an absent item. */
  method RunDemo() returns (stock: Stock, appleQty: Option<int>, low: seq<string>)
    ensures Valid(stock)
    ensures stock.values == map["apple" := 7, "banana" := -2]
    ensures stock.keys == ["apple", "banana"]
    ensures appleQty == Some(7)
    ensures low == ["banana"]
  {
    stock := EmptyStock;
    stock := AddItem(stock, [], PyStr("apple"), PyInt(10)).stock;
    stock := AddItem(stock, [], PyStr("banana"), PyInt(-2)).stock;
    var invalid := AddItem(stock, [], PyInt(123), PyStr("ten"));
    assert invalid.status == InvalidTypes && invalid.stock == stock;
    stock := RemoveItem(stock, "apple", 3).stock;
    var missing := RemoveItem(stock, "orange", 1);
    assert missing.status == MissingItem && missing.stock == stock;
    appleQty := GetQty(stock, "apple");
    low := CheckLowItems(stock, DefaultThreshold);
    assert IsLowItems(stock, DefaultThreshold, ["banana"]);
    LowItemsUnique(stock, DefaultThreshold, low, ["banana"]);
  }
}
