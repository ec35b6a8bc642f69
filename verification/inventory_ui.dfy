/** The full inventory window (`InventoryUI`): a grid mirroring the inventory's slots, the
    capacity and gold lines, and an information panel for the selected slot with use and
    drop buttons. Time scale and cursor handling are left out. */
module InventoryUI {
  import opened Options
  import opened Items
  import Inventory
  import Currency
  import Text

  const DefaultColumns: int := 5
  const DefaultRows: int := 4

  // ---------------------------------------------------------------- the grid

  /** What one grid cell displays. */
  datatype CellView = Mirrors(slot: Inventory.Slot) | Cleared

  /** `UpdateInventoryUI`'s grid: `columns * rows` cells, cell `i` mirroring inventory slot
      `i` when the inventory has one and cleared otherwise. A negative cell count cannot be
      allocated, so it is excluded. */
  function Grid(inv: Inventory.Inventory, columns: int, rows: int): (r: seq<CellView>)
    requires columns * rows >= 0
    ensures |r| == columns * rows
    ensures forall i :: 0 <= i < |r| ==> (r[i].Mirrors? <==> i < |inv|)
    ensures forall i :: 0 <= i < |r| && i < |inv| ==> r[i] == Mirrors(inv[i])
  {
    seq(columns * rows, i requires 0 <= i < columns * rows => if i < |inv| then Mirrors(inv[i]) else Cleared)
  }

  /** The mirrored cells, read back in order, are the inventory's first slots: all of them
      when the grid is large enough. */
  lemma GridMirrorsPrefix(inv: Inventory.Inventory, columns: int, rows: int)
    requires columns * rows >= 0
    ensures var g := Grid(inv, columns, rows);
      var k := Inventory.Min(|g|, |inv|);
      forall i :: 0 <= i < k ==> g[i].slot == inv[..k][i]
    ensures columns * rows >= |inv| ==>
      var g := Grid(inv, columns, rows);
      forall i :: 0 <= i < |inv| ==> g[i].slot == inv[i]
  {
  }

  /** The capacity line: "used/total". */
  function CapacityText(inv: Inventory.Inventory): (t: string)
    ensures Text.ParseRatio(t) == Text.RatioOf(Inventory.UsedSlots(inv), |inv|)
  {
    Text.RatioTextRoundTrip(Inventory.UsedSlots(inv), |inv|);
    Text.RatioText(Inventory.UsedSlots(inv), |inv|)
  }

  const GoldSuffix := " Gold"

  /** `UpdateCurrencyDisplay`'s line: "n Gold". */
  function GoldText(w: Currency.Wallet): (t: string)
    ensures |t| > |GoldSuffix| && t[|t| - |GoldSuffix|..] == GoldSuffix
    ensures Text.ParseInt(t[..|t| - |GoldSuffix|]) == Text.IntValue(w.gold)
  {
    Text.IntToStringRoundTrip(w.gold);
    var t := Text.IntToString(w.gold) + GoldSuffix;
    assert t[..|t| - |GoldSuffix|] == Text.IntToString(w.gold);
    t
  }

  // ---------------------------------------------------------------- the information panel

  /** The window's state: open or closed, the information panel, and the selection (slot
      index -1 when nothing is selected). */
  datatype Panel = Panel(open: bool, infoOpen: bool, selectedItem: Option<Item>, selectedSlotIndex: int)

  /** As `Start` leaves it: both panels hidden, nothing selected. */
  const Initial: Panel := Panel(false, false, None, -1)

  /** A selection exists exactly when an item is recorded, and then its index is a slot index. */
  predicate SelectionOk(p: Panel) {
    (p.selectedItem.None? <==> p.selectedSlotIndex == -1) && p.selectedSlotIndex >= -1
  }

  /** What the information panel shows for an item: its name, its tooltip, and which of the
      use and drop buttons are visible. */
  datatype Info = Info(name: string, description: string, useVisible: bool, dropVisible: bool)

  function ShowItemInfo(it: Item): (r: Info)
    ensures r.name == it.itemName && r.description == GetTooltip(it)
    ensures r.useVisible <==> it.isUsable
    ensures r.dropVisible <==> it.isSellable
  {
    Info(it.itemName, GetTooltip(it), it.isUsable, it.isSellable)
  }

  /** `OnSlotClicked`: an out-of-range or empty slot is ignored; an occupied one becomes the
      selection and opens the information panel. */
  function OnSlotClicked(p: Panel, inv: Inventory.Inventory, index: int): (r: Panel)
    ensures !(0 <= index < |inv|) || inv[index].IsEmpty() ==> r == p
    ensures 0 <= index < |inv| && !inv[index].IsEmpty() ==>
              r == p.(selectedItem := inv[index].item, selectedSlotIndex := index, infoOpen := true)
              && r.selectedItem.Some? && inv[index].Holds(r.selectedItem.value)
  {
    if !(0 <= index < |inv|) || inv[index].IsEmpty() then p
    else p.(selectedItem := inv[index].item, selectedSlotIndex := index, infoOpen := true)
  }

  /** `HideItemInfo`: closes the information panel and forgets the selection. */
  function HideItemInfo(p: Panel): (r: Panel)
    ensures !r.infoOpen && r.selectedItem.None? && r.selectedSlotIndex == -1
    ensures r.open == p.open
  {
    p.(infoOpen := false, selectedItem := None, selectedSlotIndex := -1)
  }

  datatype Outcome = Outcome(panel: Panel, inv: Inventory.Inventory)

  /** `UseSelectedItem`: with a selection, uses its slot and then hides the panel; without
      one, nothing happens. */
  function UseSelectedItem(p: Panel, inv: Inventory.Inventory): (r: Outcome)
    ensures !(p.selectedItem.Some? && p.selectedSlotIndex >= 0) ==> r == Outcome(p, inv)
    ensures p.selectedItem.Some? && p.selectedSlotIndex >= 0 ==>
              r == Outcome(HideItemInfo(p), Inventory.UseItem(inv, p.selectedSlotIndex))
  {
    if p.selectedItem.Some? && p.selectedSlotIndex >= 0 then
      Outcome(HideItemInfo(p), Inventory.UseItem(inv, p.selectedSlotIndex))
    else Outcome(p, inv)
  }

  /** `DropSelectedItem`: with a selection, removes one unit from its slot and then hides the
      panel; without one, nothing happens. */
  function DropSelectedItem(p: Panel, inv: Inventory.Inventory): (r: Outcome)
    ensures !(p.selectedItem.Some? && p.selectedSlotIndex >= 0) ==> r == Outcome(p, inv)
    ensures p.selectedItem.Some? && p.selectedSlotIndex >= 0 ==>
              r == Outcome(HideItemInfo(p), Inventory.RemoveItem(inv, p.selectedSlotIndex, 1))
  {
    if p.selectedItem.Some? && p.selectedSlotIndex >= 0 then
      Outcome(HideItemInfo(p), Inventory.RemoveItem(inv, p.selectedSlotIndex, 1))
    else Outcome(p, inv)
  }

  /** Clicking an occupied slot and pressing drop removes exactly one unit of that slot's
      item, touches no other item, and leaves nothing selected. */
  lemma ClickThenDrop(p: Panel, inv: Inventory.Inventory, index: int)
    requires 0 <= index < |inv| && !inv[index].IsEmpty()
    ensures var it := inv[index].item.value;
      var r := DropSelectedItem(OnSlotClicked(p, inv, index), inv);
      && Inventory.ItemCount(r.inv, it) == Inventory.ItemCount(inv, it) - 1
      && (forall other :: other != it ==> Inventory.ItemCount(r.inv, other) == Inventory.ItemCount(inv, other))
      && r.panel.selectedItem.None? && !r.panel.infoOpen
  {
  }

  /** `ToggleInventory`: flips the window; closing it also hides the panel and forgets the selection. */
  function ToggleInventory(p: Panel): (r: Panel)
    ensures r.open == !p.open
    ensures p.open ==> r == HideItemInfo(p).(open := false)
    ensures !p.open ==> r == p.(open := true)
  {
    var q := p.(open := !p.open);
    if !q.open then HideItemInfo(q) else q
  }

  /** `Update`: the toggle key flips the window; then, if it is open, Escape closes the
      information panel when that is open and otherwise closes the window. */
  function Frame(p: Panel, togglePressed: bool, escapePressed: bool): (r: Panel)
    ensures !togglePressed && !escapePressed ==> r == p
    ensures !togglePressed && escapePressed && p.open && p.infoOpen ==> r == HideItemInfo(p) && r.open
    ensures !togglePressed && escapePressed && p.open && !p.infoOpen ==> !r.open && r.selectedItem.None?
    ensures !togglePressed && escapePressed && !p.open ==> r == p
    ensures togglePressed && p.open ==> !r.open && r.selectedItem.None? && r == ToggleInventory(p)
    ensures togglePressed && !p.open && !escapePressed ==> r == p.(open := true)
    ensures togglePressed && !p.open && escapePressed ==> !r.infoOpen
    ensures togglePressed && !p.open && escapePressed ==>
      r == HideItemInfo(p).(open := p.infoOpen) && r.selectedItem.None? && r.selectedSlotIndex == -1
  {
    var afterToggle := if togglePressed then ToggleInventory(p) else p;
    if afterToggle.open && escapePressed then
      if afterToggle.infoOpen then HideItemInfo(afterToggle) else ToggleInventory(afterToggle)
    else afterToggle
  }

  /** Two Escape presses close first the information panel, then the window. */
  lemma EscapeTwiceClosesAll(p: Panel)
    requires p.open && p.infoOpen
    ensures var r := Frame(Frame(p, false, true), false, true);
      !r.open && !r.infoOpen && r.selectedItem.None?
  {
  }

  /** Every operation of the window keeps the selection well formed. */
  lemma SelectionStaysOk(p: Panel, inv: Inventory.Inventory, index: int, toggle: bool, escape: bool)
    requires SelectionOk(p)
    ensures SelectionOk(OnSlotClicked(p, inv, index))
    ensures SelectionOk(HideItemInfo(p))
    ensures SelectionOk(UseSelectedItem(p, inv).panel)
    ensures SelectionOk(DropSelectedItem(p, inv).panel)
    ensures SelectionOk(ToggleInventory(p))
    ensures SelectionOk(Frame(p, toggle, escape))
  {
  }
}
