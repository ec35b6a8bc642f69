/** The inventory: a fixed number of slots, each holding a quantity of one item. */
module Inventory {
  import opened Options
  import opened Items

  /** Number of slots created when the inventory starts. */
  const DefaultSize: nat := 20

  /** One inventory slot. A slot counts as empty when it has no item or a quantity of zero or less. */
  datatype Slot = Slot(item: Option<Item>, quantity: int) {

    predicate IsEmpty() {
      item.None? || quantity <= 0
    }

    predicate IsFull() {
      item.Some? && quantity >= item.value.maxStack
    }

    /** Whether `amount` of `it` may go into this slot: any empty slot, or a stack of the
        same stackable item with room for the whole amount. */
    predicate CanAddItem(it: Item, amount: int) {
      IsEmpty() || (item == Some(it) && it.isStackable && quantity + amount <= it.maxStack)
    }

    /** The slot holds a positive quantity of `it`. */
    predicate Holds(it: Item) {
      !IsEmpty() && item == Some(it)
    }
  }

  /** A cleared slot. */
  const EmptySlot: Slot := Slot(None, 0)

  type Inventory = seq<Slot>

  function EmptyInventory(size: nat): (inv: Inventory)
    ensures |inv| == size
    ensures forall j :: 0 <= j < size ==> inv[j] == EmptySlot
  {
    seq(size, _ => EmptySlot)
  }

  /** What one slot adds to the count of `it`. */
  function Contribution(s: Slot, it: Item): nat {
    if s.Holds(it) then s.quantity else 0
  }

  /** Total quantity of `it` over all non-empty slots holding it. */
  function ItemCount(inv: Inventory, it: Item): nat
    decreases |inv|
  {
    if |inv| == 0 then 0 else ItemCount(inv[..|inv| - 1], it) + Contribution(inv[|inv| - 1], it)
  }

  /** Number of non-empty slots. */
  function UsedSlots(inv: Inventory): (n: nat)
    ensures n <= |inv|
    decreases |inv|
  {
    if |inv| == 0 then 0 else UsedSlots(inv[..|inv| - 1]) + (if inv[|inv| - 1].IsEmpty() then 0 else 1)
  }

  // ---------------------------------------------------------------- counting lemmas

  /** Replacing one slot changes a count by exactly the difference of the two slots' shares. */
  lemma {:induction false} ItemCountUpdate(inv: Inventory, k: nat, s: Slot, it: Item)
    requires k < |inv|
    ensures ItemCount(inv[k := s], it) == ItemCount(inv, it) - Contribution(inv[k], it) + Contribution(s, it)
    decreases |inv|
  {
    var n := |inv| - 1;
    var u := inv[k := s];
    if k == n {
      assert u[..n] == inv[..n];
    } else {
      assert u[..n] == inv[..n][k := s];
      ItemCountUpdate(inv[..n], k, s, it);
    }
  }

  lemma ItemCountUpdateAll(inv: Inventory, k: nat, s: Slot)
    requires k < |inv|
    ensures forall it :: ItemCount(inv[k := s], it) == ItemCount(inv, it) - Contribution(inv[k], it) + Contribution(s, it)
  {
    forall it {
      ItemCountUpdate(inv, k, s, it);
    }
  }

  lemma {:induction false} UsedSlotsUpdate(inv: Inventory, k: nat, s: Slot)
    requires k < |inv|
    ensures UsedSlots(inv[k := s]) ==
              UsedSlots(inv) - (if inv[k].IsEmpty() then 0 else 1) + (if s.IsEmpty() then 0 else 1)
    decreases |inv|
  {
    var n := |inv| - 1;
    var u := inv[k := s];
    if k == n {
      assert u[..n] == inv[..n];
    } else {
      assert u[..n] == inv[..n][k := s];
      UsedSlotsUpdate(inv[..n], k, s);
    }
  }

  /** A prefix never holds more of an item than the whole inventory. */
  lemma {:induction false} ItemCountPrefix(inv: Inventory, i: nat, it: Item)
    requires i <= |inv|
    ensures ItemCount(inv[..i], it) <= ItemCount(inv, it)
    decreases |inv|
  {
    if i < |inv| {
      var n := |inv| - 1;
      assert inv[..n][..i] == inv[..i];
      ItemCountPrefix(inv[..n], i, it);
    } else {
      assert inv[..i] == inv;
    }
  }

  /** The count is positive exactly when some slot holds the item. */
  lemma {:induction false} ItemCountPositive(inv: Inventory, it: Item)
    ensures ItemCount(inv, it) > 0 <==> exists j :: 0 <= j < |inv| && inv[j].Holds(it)
    decreases |inv|
  {
    if |inv| > 0 {
      var n := |inv| - 1;
      ItemCountPositive(inv[..n], it);
      if ItemCount(inv[..n], it) > 0 {
        var j :| 0 <= j < n && inv[..n][j].Holds(it);
        assert inv[j].Holds(it);
      }
      if exists j :: 0 <= j < |inv| && inv[j].Holds(it) {
        var j :| 0 <= j < |inv| && inv[j].Holds(it);
        if j < n {
          assert inv[..n][j].Holds(it);
        }
      }
    }
  }

  // ---------------------------------------------------------------- searches

  /** Lowest index at or after `from` whose slot can take `amount` of `it`. */
  function FirstAddable(inv: Inventory, it: Item, amount: int, from: nat): (r: Option<nat>)
    requires from <= |inv|
    ensures r.Some? ==> from <= r.value < |inv| && inv[r.value].CanAddItem(it, amount)
    ensures r.Some? ==> forall j :: from <= j < r.value ==> !inv[j].CanAddItem(it, amount)
    ensures r.None? ==> forall j :: from <= j < |inv| ==> !inv[j].CanAddItem(it, amount)
    decreases |inv| - from
  {
    if from == |inv| then None
    else if inv[from].CanAddItem(it, amount) then Some(from)
    else FirstAddable(inv, it, amount, from + 1)
  }

  /** Lowest empty slot index at or after `from`. */
  function FirstEmpty(inv: Inventory, from: nat): (r: Option<nat>)
    requires from <= |inv|
    ensures r.Some? ==> from <= r.value < |inv| && inv[r.value].IsEmpty()
    ensures r.Some? ==> forall j :: from <= j < r.value ==> !inv[j].IsEmpty()
    ensures r.None? ==> forall j :: from <= j < |inv| ==> !inv[j].IsEmpty()
    decreases |inv| - from
  {
    if from == |inv| then None
    else if inv[from].IsEmpty() then Some(from)
    else FirstEmpty(inv, from + 1)
  }

  /** Lowest index at or after `from` of a non-empty slot holding `it`. */
  function FirstHolding(inv: Inventory, it: Item, from: nat): (r: Option<nat>)
    requires from <= |inv|
    ensures r.Some? ==> from <= r.value < |inv| && inv[r.value].Holds(it)
    ensures r.Some? ==> forall j :: from <= j < r.value ==> !inv[j].Holds(it)
    ensures r.None? ==> forall j :: from <= j < |inv| ==> !inv[j].Holds(it)
    decreases |inv| - from
  {
    if from == |inv| then None
    else if inv[from].Holds(it) then Some(from)
    else FirstHolding(inv, it, from + 1)
  }

  // ---------------------------------------------------------------- adding

  /** The slot AddItem fills: for a stackable item the first slot that can take the whole
      amount, otherwise (or when there is none) the first empty slot. */
  function Placement(inv: Inventory, it: Item, amount: int): (k: Option<nat>)
    ensures k.Some? ==> k.value < |inv| && inv[k.value].CanAddItem(it, amount)
    ensures k.Some? ==> forall j :: 0 <= j < k.value ==> !inv[j].CanAddItem(it, amount)
    ensures it.isStackable ==> (k.None? <==> forall j :: 0 <= j < |inv| ==> !inv[j].CanAddItem(it, amount))
    ensures !it.isStackable ==> (k.Some? ==> inv[k.value].IsEmpty())
    ensures !it.isStackable ==> (k.None? <==> forall j :: 0 <= j < |inv| ==> !inv[j].IsEmpty())
  {
    var stacked := if it.isStackable then FirstAddable(inv, it, amount, 0) else None;
    if stacked.Some? then stacked else FirstEmpty(inv, 0)
  }

  /** The slot after `amount` of `it` is put in it. */
  function Put(s: Slot, it: Item, amount: int): Slot {
    if s.IsEmpty() then Slot(Some(it), amount) else s.(quantity := s.quantity + amount)
  }

  datatype AddResult = AddResult(added: bool, inv: Inventory)

  /** `AddItem(Item, int)`: puts the whole amount into one slot, or reports failure and changes nothing. */
  function AddItem(inv: Inventory, item: Option<Item>, amount: int): (r: AddResult)
    ensures |r.inv| == |inv|
    ensures item.None? || amount <= 0 ==> r == AddResult(false, inv)
    ensures !r.added ==> r.inv == inv
    ensures r.added <==> item.Some? && amount > 0 && Placement(inv, item.value, amount).Some?
    ensures r.added ==>
              var k := Placement(inv, item.value, amount).value;
              && (forall j :: 0 <= j < |inv| && j != k ==> r.inv[j] == inv[j])
              && r.inv[k].Holds(item.value)
    ensures r.added ==> ItemCount(r.inv, item.value) == ItemCount(inv, item.value) + amount
    ensures r.added ==> forall other :: other != item.value ==> ItemCount(r.inv, other) == ItemCount(inv, other)
  {
    if item.None? || amount <= 0 then AddResult(false, inv)
    else
      var it := item.value;
      match Placement(inv, it, amount)
      case None => AddResult(false, inv)
      case Some(k) =>
        var s := Put(inv[k], it, amount);
        ItemCountUpdateAll(inv, k, s);
        AddResult(true, inv[k := s])
  }

  /** `InitializeInventory`: `size` cleared slots, then two of the configured mana potion, or
      of the item a by-name asset lookup found (`lookedUp`, the result of a lookup this model
      does not perform). */
  function InitializeInventory(size: nat, manaPotionItem: Option<Item>, lookedUp: Option<Item>): (inv: Inventory)
    ensures |inv| == size
    ensures var it := if manaPotionItem.Some? then manaPotionItem else lookedUp;
      size > 0 && it.Some? ==> ItemCount(inv, it.value) == 2 && UsedSlots(inv) == 1
    ensures var it := if manaPotionItem.Some? then manaPotionItem else lookedUp;
      size == 0 || it.None? ==> UsedSlots(inv) == 0
  {
    var it := if manaPotionItem.Some? then manaPotionItem else lookedUp;
    var empty := EmptyInventory(size);
    var r := AddItem(empty, it, 2);
    if size > 0 && it.Some? then
      assert empty[0].CanAddItem(it.value, 2);
      var k := Placement(empty, it.value, 2).value;
      NoneUsed(empty);
      ItemCountPositive(empty, it.value);
      UsedSlotsUpdate(empty, k, r.inv[k]);
      assert r.inv == empty[k := r.inv[k]];
      r.inv
    else
      NoneUsed(empty);
      r.inv
  }

  lemma {:induction false} NoneUsed(inv: Inventory)
    requires forall j :: 0 <= j < |inv| ==> inv[j].IsEmpty()
    ensures UsedSlots(inv) == 0
    decreases |inv|
  {
    if |inv| > 0 {
      NoneUsed(inv[..|inv| - 1]);
    }
  }

  // ---------------------------------------------------------------- removing, using, swapping

  function Min(a: int, b: int): int {
    if a <= b then a else b
  }

  /** `RemoveItem`: takes `amount` from a non-empty slot, clearing it when nothing positive is left;
      an out-of-range index or an empty slot leaves the inventory as it is. */
  function RemoveItem(inv: Inventory, index: int, amount: int): (r: Inventory)
    ensures |r| == |inv|
    ensures !(0 <= index < |inv|) || inv[index].IsEmpty() ==> r == inv
    ensures forall j :: 0 <= j < |inv| && j != index ==> r[j] == inv[j]
    ensures 0 <= index < |inv| && !inv[index].IsEmpty() ==>
              var s := inv[index];
              && (r[index].IsEmpty() <==> s.quantity - amount <= 0)
              && (r[index].IsEmpty() ==> r[index] == EmptySlot)
              && (!r[index].IsEmpty() ==> r[index] == s.(quantity := s.quantity - amount))
              && (amount >= 0 ==> ItemCount(r, s.item.value) == ItemCount(inv, s.item.value) - Min(s.quantity, amount))
              && (forall other :: other != s.item.value ==> ItemCount(r, other) == ItemCount(inv, other))
  {
    if !(0 <= index < |inv|) || inv[index].IsEmpty() then inv
    else
      var s := inv[index];
      var left := s.quantity - amount;
      var s' := if left <= 0 then EmptySlot else s.(quantity := left);
      ItemCountUpdateAll(inv, index, s');
      inv[index := s']
  }

  /** `UseItem`: a usable item in a non-empty slot is used (its effect is only a log line)
      and one unit is removed; anything else is ignored. */
  function UseItem(inv: Inventory, index: int): (r: Inventory)
    ensures |r| == |inv|
    ensures !(0 <= index < |inv| && !inv[index].IsEmpty() && inv[index].item.value.isUsable) ==> r == inv
    ensures 0 <= index < |inv| && !inv[index].IsEmpty() && inv[index].item.value.isUsable ==>
              && r == RemoveItem(inv, index, 1)
              && ItemCount(r, inv[index].item.value) == ItemCount(inv, inv[index].item.value) - 1
  {
    if 0 <= index < |inv| && !inv[index].IsEmpty() && inv[index].item.value.isUsable then
      RemoveItem(inv, index, 1)
    else inv
  }

  /** `SwapSlots`: exchanges two slots when both indices are in range. */
  function SwapSlots(inv: Inventory, a: int, b: int): (r: Inventory)
    ensures |r| == |inv|
    ensures !(0 <= a < |inv| && 0 <= b < |inv|) ==> r == inv
    ensures 0 <= a < |inv| && 0 <= b < |inv| ==>
              && r[a] == inv[b] && r[b] == inv[a]
              && (forall j :: 0 <= j < |inv| && j != a && j != b ==> r[j] == inv[j])
    ensures multiset(r) == multiset(inv)
    ensures forall it :: ItemCount(r, it) == ItemCount(inv, it)
    ensures UsedSlots(r) == UsedSlots(inv)
  {
    if 0 <= a < |inv| && 0 <= b < |inv| then
      var first := inv[a := inv[b]];
      ItemCountUpdateAll(inv, a, inv[b]);
      ItemCountUpdateAll(first, b, inv[a]);
      UsedSlotsUpdate(inv, a, inv[b]);
      UsedSlotsUpdate(first, b, inv[a]);
      assert multiset(first[b := inv[a]]) == multiset(inv);
      first[b := inv[a]]
    else inv
  }

  // ---------------------------------------------------------------- queries

  /** `GetItemCount`: the source's summing loop. */
  method GetItemCount(inv: Inventory, it: Item) returns (count: nat)
    ensures count == ItemCount(inv, it)
  {
    count := 0;
    var i := 0;
    while i < |inv|
      invariant 0 <= i <= |inv|
      invariant count == ItemCount(inv[..i], it)
    {
      assert inv[..i + 1][..i] == inv[..i];
      if inv[i].Holds(it) {
        count := count + inv[i].quantity;
      }
      i := i + 1;
    }
    assert inv[..i] == inv;
  }

  /** `HasItem`: the source's loop, which answers true as soon as the running total reaches
      `amount`, and only ever after adding a holding slot; so it holds exactly when some slot
      holds the item and the total reaches the amount. */
  method HasItem(inv: Inventory, it: Item, amount: int) returns (r: bool)
    ensures r <==> ItemCount(inv, it) > 0 && ItemCount(inv, it) >= amount
  {
    var total := 0;
    var i := 0;
    while i < |inv|
      invariant 0 <= i <= |inv|
      invariant total == ItemCount(inv[..i], it)
      invariant total > 0 ==> total < amount
    {
      assert inv[..i + 1][..i] == inv[..i];
      if inv[i].Holds(it) {
        total := total + inv[i].quantity;
        if total >= amount {
          ItemCountPrefix(inv, i + 1, it);
          return true;
        }
      }
      i := i + 1;
    }
    assert inv[..i] == inv;
    return false;
  }

  /** For a positive amount, HasItem is exactly "the count reaches the amount". */
  lemma HasItemPositiveAmount(inv: Inventory, it: Item, amount: int)
    requires amount >= 1
    ensures (ItemCount(inv, it) > 0 && ItemCount(inv, it) >= amount) <==> ItemCount(inv, it) >= amount
  {
  }

  // ---------------------------------------------------------------- placement consequences

  /** An empty slot ahead of a partial stack takes the new items: stacks are not preferred. */
  lemma EarlierEmptySlotWins(inv: Inventory, it: Item, amount: int, i: nat, j: nat)
    requires amount > 0 && i < j < |inv|
    requires inv[i].IsEmpty() && inv[j].Holds(it)
    ensures AddItem(inv, Some(it), amount).added
    ensures AddItem(inv, Some(it), amount).inv[j] == inv[j]
  {
    assert inv[i].CanAddItem(it, amount);
  }

  /** The stack limit only guards adding to an existing stack: into an empty slot the whole
      amount goes, however large. */
  lemma StackLimitIgnoredForEmptySlot(inv: Inventory, it: Item, amount: int, k: nat)
    requires amount > it.maxStack && amount > 0 && k < |inv|
    requires inv[k].IsEmpty() && forall j :: 0 <= j < k ==> !inv[j].CanAddItem(it, amount)
    ensures AddItem(inv, Some(it), amount).added
    ensures AddItem(inv, Some(it), amount).inv[k] == Slot(Some(it), amount)
  {
    assert inv[k].CanAddItem(it, amount);
    if !it.isStackable {
      assert forall j :: 0 <= j < k ==> !inv[j].IsEmpty();
    }
  }

  /** With no empty slot and no stack that can take the whole amount, nothing is added. */
  lemma FullInventoryRejects(inv: Inventory, it: Item, amount: int)
    requires forall j :: 0 <= j < |inv| ==> !inv[j].CanAddItem(it, amount)
    ensures AddItem(inv, Some(it), amount) == AddResult(false, inv)
  {
  }
}
