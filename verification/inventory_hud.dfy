/** The always-on inventory strip (`InventoryHUD`): the first few occupied slots, number keys
    that use them, the capacity and gold lines, and a timed notification. The strip keeps
    its own copy of the visible slots and refreshes it whenever the inventory reports a
    change. */
module InventoryHUD {
  import opened Options
  import opened Items
  import Inventory
  import Currency
  import Text

  /** Number of strip slots created by default. */
  const DefaultVisibleSlots: int := 4

  /** Number of quick-use keys (1 to 4). */
  const QuickUseKeyCount: nat := 4

  // ---------------------------------------------------------------- the visible window

  /** The occupied slots, in inventory order. */
  function NonEmptySlots(inv: Inventory.Inventory): (r: seq<Inventory.Slot>)
    ensures |r| == Inventory.UsedSlots(inv)
    decreases |inv|
  {
    if |inv| == 0 then []
    else
      var n := |inv| - 1;
      NonEmptySlots(inv[..n]) + (if inv[n].IsEmpty() then [] else [inv[n]])
  }

  /** A slot is listed exactly when it is an occupied slot of the inventory. */
  lemma {:induction false} NonEmptySlotsMembers(inv: Inventory.Inventory)
    ensures forall s :: s in NonEmptySlots(inv) <==> s in inv && !s.IsEmpty()
    decreases |inv|
  {
    if |inv| > 0 {
      var n := |inv| - 1;
      NonEmptySlotsMembers(inv[..n]);
      assert inv == inv[..n] + [inv[n]];
    }
  }

  /** The first `k` elements, or all of them when there are fewer; none for `k <= 0`. */
  function Take<T>(s: seq<T>, k: int): (r: seq<T>)
    ensures |r| <= |s| && (k <= 0 ==> r == []) && (k >= |s| ==> r == s)
    ensures 0 <= k <= |s| ==> r == s[..k]
  {
    if k <= 0 then [] else if k >= |s| then s else s[..k]
  }

  lemma TakeSnoc<T>(s: seq<T>, x: T, k: int)
    ensures Take(s + [x], k) == if |Take(s, k)| < k then Take(s, k) + [x] else Take(s, k)
  {
    if 0 < k <= |s| {
      assert (s + [x])[..k] == s[..k];
    }
  }

  /** One more slot scanned: an occupied slot joins the occupied list, and the window when it has room. */
  lemma ScanStep(inv: Inventory.Inventory, i: nat, k: int)
    requires i < |inv|
    ensures Inventory.UsedSlots(inv[..i + 1]) == Inventory.UsedSlots(inv[..i]) + (if inv[i].IsEmpty() then 0 else 1)
    ensures Take(NonEmptySlots(inv[..i + 1]), k) ==
      var w := Take(NonEmptySlots(inv[..i]), k);
      if !inv[i].IsEmpty() && |w| < k then w + [inv[i]] else w
  {
    var before := NonEmptySlots(inv[..i]);
    assert inv[..i + 1][..i] == inv[..i];
    assert NonEmptySlots(inv[..i + 1]) == before + (if inv[i].IsEmpty() then [] else [inv[i]]);
    TakeSnoc(before, inv[i], k);
  }

  /** `UpdateHUD`'s scan: the strip shows the first `visibleSlots` occupied slots in inventory
      order, and the number of occupied slots is counted on the way. */
  method UpdateHUD(inv: Inventory.Inventory, visibleSlots: int) returns (visible: seq<Inventory.Slot>, itemCount: nat)
    ensures visible == Take(NonEmptySlots(inv), visibleSlots)
    ensures itemCount == Inventory.UsedSlots(inv)
  {
    visible := [];
    itemCount := 0;
    var i := 0;
    while i < |inv|
      invariant 0 <= i <= |inv|
      invariant itemCount == Inventory.UsedSlots(inv[..i])
      invariant visible == Take(NonEmptySlots(inv[..i]), visibleSlots)
    {
      ScanStep(inv, i, visibleSlots);
      if !inv[i].IsEmpty() {
        itemCount := itemCount + 1;
        if |visible| < visibleSlots {
          visible := visible + [inv[i]];
        }
      }
      i := i + 1;
    }
    assert inv[..|inv|] == inv;
  }

  /** The visible window as a value, for the operations that refresh it. */
  function VisibleItems(inv: Inventory.Inventory, visibleSlots: int): (r: seq<Inventory.Slot>)
    ensures |r| == if visibleSlots <= 0 then 0 else Inventory.Min(visibleSlots, Inventory.UsedSlots(inv))
    ensures forall s :: s in r ==> s in inv && !s.IsEmpty()
    ensures forall i :: 0 <= i < |r| ==> r[i] == NonEmptySlots(inv)[i]
  {
    NonEmptySlotsMembers(inv);
    Take(NonEmptySlots(inv), visibleSlots)
  }

  /** What one strip slot displays. */
  datatype SlotView = Showing(slot: Inventory.Slot) | Blank

  /** The strip's `n` slots: slot `i` shows visible item `i` when there is one and is blank otherwise. */
  function SlotViews(visible: seq<Inventory.Slot>, n: nat): (r: seq<SlotView>)
    ensures |r| == n
    ensures forall i :: 0 <= i < n ==> (r[i].Showing? <==> i < |visible|)
    ensures forall i :: 0 <= i < n && i < |visible| ==> r[i] == Showing(visible[i])
  {
    seq(n, i requires 0 <= i < n => if i < |visible| then Showing(visible[i]) else Blank)
  }

  /** Strip slot `i` shows the `i`-th occupied inventory slot exactly when `i` is within both
      the strip and the number of occupied slots. */
  lemma StripShowsFirstOccupied(inv: Inventory.Inventory, n: nat, i: nat)
    requires i < n
    ensures var r := SlotViews(VisibleItems(inv, n), n);
      && (r[i].Showing? <==> i < Inventory.UsedSlots(inv))
      && (r[i].Showing? ==> r[i].slot == NonEmptySlots(inv)[i])
  {
  }

  // ---------------------------------------------------------------- text lines

  const ItemsPrefix := "Items: "
  const GoldPrefix := "Gold: "

  /** `UpdateStats`' capacity line: "Items: used/total", or "Items: 0/0" without an inventory. */
  function CapacityText(inv: Option<Inventory.Inventory>): (t: string)
    ensures |t| > |ItemsPrefix| && t[..|ItemsPrefix|] == ItemsPrefix
    ensures inv.Some? ==> Text.ParseRatio(t[|ItemsPrefix|..]) == Text.RatioOf(Inventory.UsedSlots(inv.value), |inv.value|)
    ensures inv.None? ==> Text.ParseRatio(t[|ItemsPrefix|..]) == Text.RatioOf(0, 0)
  {
    var used := if inv.Some? then Inventory.UsedSlots(inv.value) else 0;
    var total := if inv.Some? then |inv.value| else 0;
    Text.RatioTextRoundTrip(used, total);
    var t := ItemsPrefix + Text.RatioText(used, total);
    assert t[|ItemsPrefix|..] == Text.RatioText(used, total);
    t
  }

  /** `UpdateStats`' gold line: "Gold: n", or "Gold: 0" without a purse. */
  function GoldText(w: Option<Currency.Wallet>): (t: string)
    ensures |t| >= |GoldPrefix| && t[..|GoldPrefix|] == GoldPrefix
    ensures Text.ParseInt(t[|GoldPrefix|..]) == Text.IntValue(if w.Some? then w.value.gold else 0)
  {
    var g := if w.Some? then w.value.gold else 0;
    Text.IntToStringRoundTrip(g);
    var t := GoldPrefix + Text.IntToString(g);
    assert t[|GoldPrefix|..] == Text.IntToString(g);
    t
  }

  // ---------------------------------------------------------------- notifications

  /** The notification panel: shown or hidden, its text, and the time left before it hides. */
  datatype Notice = Notice(shown: bool, text: string, timer: real)

  const NoNotice: Notice := Notice(false, "", 0.0)

  /** `ShowNotification`: with both widgets assigned, shows the message for `duration`
      seconds (2 by default); without them nothing happens. */
  function ShowNotification(n: Notice, widgets: bool, message: string, duration: real := 2.0): (r: Notice)
    ensures !widgets ==> r == n
    ensures widgets ==> r.shown && r.text == message && r.timer == duration
  {
    if widgets then Notice(true, message, duration) else n
  }

  /** `Update`'s notification countdown: while time is left it drops by `dt`, and the panel
      hides when it runs out. */
  function TickNotice(n: Notice, dt: real): (r: Notice)
    ensures n.timer <= 0.0 ==> r == n
    ensures n.timer > 0.0 ==> r.timer == n.timer - dt && r.text == n.text
    ensures n.timer > 0.0 ==> (r.shown <==> n.shown && n.timer - dt > 0.0)
  {
    if n.timer > 0.0 then
      var t := n.timer - dt;
      Notice(n.shown && t > 0.0, n.text, t)
    else n
  }

  function Sum(dts: seq<real>): real
    decreases |dts|
  {
    if |dts| == 0 then 0.0 else Sum(dts[..|dts| - 1]) + dts[|dts| - 1]
  }

  function TickAll(n: Notice, dts: seq<real>): Notice
    decreases |dts|
  {
    if |dts| == 0 then n else TickNotice(TickAll(n, dts[..|dts| - 1]), dts[|dts| - 1])
  }

  /** A notification shown for a positive duration stays up exactly while the frame times
      add up to less than the duration. */
  lemma {:induction false} NoticeShownWhileTimeLeft(message: string, duration: real, dts: seq<real>)
    requires duration > 0.0
    requires forall j :: 0 <= j < |dts| ==> dts[j] >= 0.0
    ensures var r := TickAll(Notice(true, message, duration), dts);
      (r.shown <==> Sum(dts) < duration) && r.text == message
      && (Sum(dts) < duration ==> r.timer == duration - Sum(dts))
    decreases |dts|
  {
    if |dts| > 0 {
      var n := |dts| - 1;
      NoticeShownWhileTimeLeft(message, duration, dts[..n]);
      var before := TickAll(Notice(true, message, duration), dts[..n]);
      assert Sum(dts) == Sum(dts[..n]) + dts[n];
      if Sum(dts[..n]) >= duration {
        assert !before.shown;
        assert before.timer <= 0.0 || !TickNotice(before, dts[n]).shown;
      }
    }
  }

  /** A notification shown with a duration of zero or less never hides: the countdown only
      runs while time is left. */
  lemma NonPositiveDurationNeverHides(message: string, duration: real, dts: seq<real>)
    requires duration <= 0.0
    ensures TickAll(Notice(true, message, duration), dts) == Notice(true, message, duration)
    decreases |dts|
  {
    if |dts| > 0 {
      NonPositiveDurationNeverHides(message, duration, dts[..|dts| - 1]);
    }
  }

  // ---------------------------------------------------------------- the strip's state

  /** The strip: shown or hidden, its size, whether the notification widgets are assigned,
      its copy of the visible slots and the notification. */
  datatype Hud = Hud(showHUD: bool, visibleSlots: int, widgets: bool, visible: seq<Inventory.Slot>, notice: Notice)

  datatype World = World(hud: Hud, inv: Inventory.Inventory)

  /** The strip is in step with the inventory. */
  predicate Synced(w: World) {
    w.hud.visible == VisibleItems(w.inv, w.hud.visibleSlots)
  }

  /** The inventory's change event: the strip recomputes its window. */
  function Refresh(w: World): (r: World)
    ensures Synced(r) && r.inv == w.inv
  {
    w.(hud := w.hud.(visible := VisibleItems(w.inv, w.hud.visibleSlots)))
  }

  /** `UseItemFromVisibleSlot`: for a visible index, uses the first inventory slot holding the
      same item and shows "Used <name>", whether or not the item could be used. */
  function UseItemFromVisibleSlot(w: World, visibleIndex: int): (r: World)
    ensures !(0 <= visibleIndex < |w.hud.visible|) || w.hud.visible[visibleIndex].item.None? ==> r == w
    ensures 0 <= visibleIndex < |w.hud.visible| && w.hud.visible[visibleIndex].item.Some? ==>
      var it := w.hud.visible[visibleIndex].item.value;
      match Inventory.FirstHolding(w.inv, it, 0)
      case None => r == w
      case Some(k) =>
        && r.inv == Inventory.UseItem(w.inv, k)
        && r.hud.notice == ShowNotification(w.hud.notice, w.hud.widgets, "Used " + it.itemName)
        && (it.isUsable ==> Synced(r) && Inventory.ItemCount(r.inv, it) == Inventory.ItemCount(w.inv, it) - 1)
        && (!it.isUsable ==> r.inv == w.inv && r.hud.visible == w.hud.visible)
  {
    if !(0 <= visibleIndex < |w.hud.visible|) || w.hud.visible[visibleIndex].item.None? then w
    else
      var it := w.hud.visible[visibleIndex].item.value;
      match Inventory.FirstHolding(w.inv, it, 0)
      case None => w
      case Some(k) =>
        var used := w.(inv := Inventory.UseItem(w.inv, k));
        var after := if it.isUsable then Refresh(used) else used;
        after.(hud := after.hud.(notice := ShowNotification(w.hud.notice, w.hud.widgets, "Used " + it.itemName)))
  }

  /** The quick-use keys from `i` on, in key order; a key acts only while its index is within
      the current window, which a use may have refreshed. */
  function QuickUse(w: World, pressed: seq<bool>, i: nat): (r: World)
    requires i <= |pressed|
    ensures (forall j :: i <= j < |pressed| ==> !pressed[j]) ==> r == w
    decreases |pressed| - i
  {
    if i == |pressed| then w
    else
      var next := if pressed[i] && i < |w.hud.visible| then UseItemFromVisibleSlot(w, i) else w;
      QuickUse(next, pressed, i + 1)
  }

  /** On a strip in step with the inventory, a quick-use key uses the lowest-index slot
      holding the item shown under it, and a usable item's count drops by one. */
  lemma QuickUseUsesFirstHoldingSlot(w: World, i: nat)
    requires Synced(w) && i < |w.hud.visible|
    ensures var s := w.hud.visible[i];
      && s.item.Some?
      && Inventory.FirstHolding(w.inv, s.item.value, 0).Some?
      && UseItemFromVisibleSlot(w, i).inv == Inventory.UseItem(w.inv, Inventory.FirstHolding(w.inv, s.item.value, 0).value)
      && (s.item.value.isUsable ==>
            Inventory.ItemCount(UseItemFromVisibleSlot(w, i).inv, s.item.value) == Inventory.ItemCount(w.inv, s.item.value) - 1)
  {
    var s := w.hud.visible[i];
    assert s in w.hud.visible;
    assert s in w.inv && !s.IsEmpty();
    var j :| 0 <= j < |w.inv| && w.inv[j] == s;
    assert w.inv[j].Holds(s.item.value);
  }

  /** `Update`: the toggle key flips the strip, the quick-use keys act in order, then the
      notification counts down. */
  function Frame(w: World, togglePressed: bool, pressed: seq<bool>, dt: real): (r: World)
    ensures r.hud.showHUD == (w.hud.showHUD != togglePressed)
    ensures (forall j :: 0 <= j < |pressed| ==> !pressed[j]) ==>
              r == w.(hud := w.hud.(showHUD := r.hud.showHUD, notice := TickNotice(w.hud.notice, dt)))
  {
    var toggled := w.(hud := w.hud.(showHUD := if togglePressed then !w.hud.showHUD else w.hud.showHUD));
    var used := QuickUse(toggled, pressed, 0);
    used.(hud := used.hud.(notice := TickNotice(used.hud.notice, dt), showHUD := toggled.hud.showHUD))
  }

  /** `AddItemWithNotification`: adds the item and reports "Added <n>x <name>" for the default
      time, or "Inventory full!" for 1.5 seconds when it did not fit. */
  function AddItemWithNotification(w: World, item: Item, amount: int := 1): (r: World)
    ensures var a := Inventory.AddItem(w.inv, Some(item), amount);
      && r.inv == a.inv
      && (a.added ==> Synced(r) && r.hud.notice == ShowNotification(w.hud.notice, w.hud.widgets,
                                      "Added " + Text.IntToString(amount) + "x " + item.itemName))
      && (!a.added ==> r.hud.visible == w.hud.visible
                       && r.hud.notice == ShowNotification(w.hud.notice, w.hud.widgets, "Inventory full!", 1.5))
  {
    var a := Inventory.AddItem(w.inv, Some(item), amount);
    if a.added then
      var after := Refresh(w.(inv := a.inv));
      after.(hud := after.hud.(notice := ShowNotification(w.hud.notice, w.hud.widgets,
                                 "Added " + Text.IntToString(amount) + "x " + item.itemName)))
    else
      w.(hud := w.hud.(notice := ShowNotification(w.hud.notice, w.hud.widgets, "Inventory full!", 1.5)))
  }
}
