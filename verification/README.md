# Inventory store model

A Dafny model of the in-memory inventory store of `inventory_system.py`.
The store maps item names to integer quantities, and four operations act on it:

- `add_item` checks the argument types and the item name. It then adds a
  quantity to an item, creating the item at 0, and logs the addition.
- `remove_item` subtracts a quantity and deletes the item when it drops to
  zero or below. An absent item is reported, and nothing changes.
- `get_qty` looks an item up.
- `check_lowitems` lists the items whose quantity is below a threshold.

The module-level mutable `stock_data` dict becomes an explicit `Stock` value.
Every operation takes it and returns the new one.

Python dicts iterate in insertion order, and `check_lowitems` reports in that
order. So the store is modelled as an ordered dictionary (module
`OrderedDict`): an iteration order `keys` together with the mapping `values`.
Its behaviour follows Python's:

- assigning to a present key keeps that key's position;
- a new key goes to the end;
- `del` removes a key from the order, so re-adding it later puts it last.

Module `Inventory` holds the four operations. Module `InventoryProperties`
holds the properties that relate several calls, plus the call sequence of
`main`.

How the model represents the source's behaviour:

- **Arguments of `add_item`.** They are `PyValue`s (`PyStr`, `PyInt` or
  `PyOther`), so that the two `isinstance` checks can be modelled.
- **Error paths.** Each one prints a message and returns `None` in the source.
  In the model, each returns the unchanged store with a `Status` tag:
  `InvalidTypes`, `EmptyName` or `MissingItem`.
- **Lookups of an absent item.** `get_qty` raises a `KeyError` that nothing
  catches. The model returns `None` instead.
- **The log.** The caller's log list is passed in and returned with the new
  entry appended. `add_item`'s default `logs=None` makes a fresh list that is
  then dropped. The model corresponds to that when the caller passes `[]` and
  ignores the returned log.

## Model

| member | source | states |
|---|---|---|
| OrderedDict.Put | inventory_system.py:30 | dict assignment: the key holds the new value, every other key is present and valued as before, and the old iteration order is a prefix of the new one (an existing key keeps its place) |
| OrderedDict.Delete | inventory_system.py:44 | `del`: the key is gone from mapping and order, every other key is present and valued as before, the new order is the old one with the key dropped, and any two remaining keys keep their relative order |
| OrderedDict.Without | inventory_system.py:44 | the iteration order after `del`: exactly the old keys other than the deleted one |
| OrderedDict.WithoutKeepsOrder | inventory_system.py:44 | dropping a key keeps the relative order of every pair of other keys, in both directions |
| OrderedDict.WithoutDistinct | inventory_system.py:44 | deleting a key from an order without repetitions leaves one without repetitions |
| Inventory.GetQty | inventory_system.py:57 | the lookup succeeds exactly when the item is in the store, and then yields its stored quantity; an absent item gives `None`, standing for the uncaught `KeyError` |
| Inventory.AddItem | inventory_system.py:22-31 | a non-`str` item or non-`int` qty, or an empty name, leaves store and log unchanged. Otherwise the item's new quantity is its old one (0 if absent) plus `qty`, negative `qty` included. Every other item is unchanged, a new item is appended to the order, and the log grows by exactly that one entry |
| Inventory.RemoveItem | inventory_system.py:41-46 | an absent item leaves the store unchanged. A present item with old − qty ≤ 0 is deleted, and one with old − qty > 0 stores old − qty, keeping its place. Nothing else changes, and afterwards the item is absent or strictly positive |
| Inventory.EmptyStockHoldsNothing | inventory_system.py:11 | the store at process start is well formed and empty: every lookup fails, every removal reports a missing item, and the low-items report is empty |
| Inventory.IsLowItems | inventory_system.py:100-104 | the specification of the low-items report (exact members below the threshold, increasing iteration order); any list meeting it names each item once |
| Inventory.CheckLowItemsDefault | inventory_system.py:92 | `check_lowitems()` without an argument reports against the default threshold 5 |
| Inventory.CheckLowItems | inventory_system.py:100-104 | the result holds exactly the items whose quantity is < threshold, each once, in the store's iteration order |
| InventoryProperties.LowItemsUnique | inventory_system.py:100-104 | only one list satisfies the low-items specification, so the report is fully determined by the store and the threshold |
| InventoryProperties.OrderedListsEqual | inventory_system.py:101-103 | two lists of the store's keys with the same members, both in iteration order, are equal |
| InventoryProperties.AddAccumulates | inventory_system.py:30-31 | successive additions to one item sum up: it ends at its old quantity plus the sum of the quantities, other items are untouched, the order gains the item only if it was new, and the log gains one entry per call |
| InventoryProperties.AddThenGet | inventory_system.py:30 | after an addition, `get_qty` of the item reads its old quantity (0 if absent) plus `qty`, and `get_qty` of any other item reads as before |
| InventoryProperties.RemoveThenGet | inventory_system.py:42-44 | after a removal, `get_qty` of the item fails if old − qty ≤ 0 and reads old − qty otherwise, and `get_qty` of any other item reads as before |
| InventoryProperties.AddThenRemoveRestores | inventory_system.py:30 | removing a positive quantity just added restores the exact store, order included, when the item was absent or positive before |
| InventoryProperties.RemoveKeepsPositive | inventory_system.py:42-44 | removal preserves "every quantity is positive" for any removed amount |
| InventoryProperties.AddPositiveKeepsPositive | inventory_system.py:30 | an addition with a positive quantity preserves "every quantity is positive" |
| InventoryProperties.NegativeAddAdmitted | inventory_system.py:24-30 | the type and name checks admit a negative quantity: adding −2 "banana" to the empty store stores −2, breaking positivity |
| InventoryProperties.ReAddGoesLast | inventory_system.py:30 | an item deleted by `remove_item` and then added again moves to the end of the iteration order |
| InventoryProperties.RunDemo | inventory_system.py:111-117 | `main`'s calls, up to the low-items report, leave `{"apple": 7, "banana": -2}` in that order; `get_qty("apple")` is 7 and the report is `["banana"]` |

## Left out

- `load_data` and `save_data` (lines 60-80) are left out. They are file I/O
  and JSON serialisation, and `main` never stores the loaded result back.
- `print_data` (lines 83-89) is left out, and so are the printed error
  messages. Those prints are console output only, and each is represented
  by a `Status` tag.
- The timestamp of a log entry (`datetime.now()`, line 31) is left out. An
  entry records only the quantity and the item.
- The default arguments `item="default"` and `qty=0` of `add_item` are not
  modelled. Callers always pass both arguments.
- A `bool` quantity is not modelled. Python accepts one in `add_item`
  because `bool` is a subclass of `int`.
- `remove_item` with a quantity that cannot be subtracted raises an uncaught
  `TypeError`. That case is not modelled: the model takes the quantity as an
  integer.
- `remove_item` with an item that is not a string is not modelled either. The
  model takes the item name as a string. A hashable non-string is simply
  absent, which is the `MissingItem` path.
- The `ValueError` and `FileNotFoundError` handlers of `remove_item` are not
  modelled, because nothing in its body raises either.
- `main`'s calls after the low-items report (lines 118-121: save, load, print)
  are left out for the reasons above.
