/** The second shop front-end (`ShopUI`). It sells the same catalogue as `ShopManager` but
    its purchase ignores whether the unit fitted, its quoted sell price trusts any catalogue
    entry, and its lists are unfiltered. The lemmas at the end pin down where the two differ.

    In these scripts, the tiles this front-end builds are handed the `ShopManager` (ShopUI.cs
    lines 156 and 180), and a tile click calls `ShopManager.SelectItem`. So no script calls
    this module's `SelectItem`, and its `BuyItem` and `SellItem`, which only its own info panel's
    buttons call, are not reached from a click. The comparison lemmas describe what these paths
    would do if a scene wired them up. */
module ShopUI {
  import opened Options
  import opened Items
  import opened ShopCatalog
  import Inventory
  import Currency
  import ShopManager

  /** `BuyItem`: pays the price, tries to add one unit and counts the stock down whatever
      the inventory said. */
  function BuyItem(t: Trade, k: nat): (r: Trade)
    requires k < |t.shop.itemsForSale|
    ensures var d := t.shop.itemsForSale[k];
      && (!Currency.HasEnoughGold(t.wallet, d.price) ==> r == t)
      && (Currency.HasEnoughGold(t.wallet, d.price) ==>
            && r.wallet == Currency.Wallet(t.wallet.gold - d.price, t.wallet.gems)
            && r.shop == RecordSale(t.shop, k)
            && r.inv == Inventory.AddItem(t.inv, Some(d.item), 1).inv)
  {
    var d := t.shop.itemsForSale[k];
    var spend := Currency.SpendGold(t.wallet, d.price);
    if !spend.ok then t
    else Trade(spend.wallet, Inventory.AddItem(t.inv, Some(d.item), 1).inv, RecordSale(t.shop, k))
  }

  /** A full inventory makes this front-end take the gold and a unit of stock and hand over nothing. */
  lemma BuyIntoFullInventoryLosesPurchase(t: Trade, k: nat)
    requires k < |t.shop.itemsForSale|
    requires Currency.HasEnoughGold(t.wallet, t.shop.itemsForSale[k].price)
    requires !Inventory.AddItem(t.inv, Some(t.shop.itemsForSale[k].item), 1).added
    ensures BuyItem(t, k).inv == t.inv
    ensures BuyItem(t, k).wallet.gold == t.wallet.gold - t.shop.itemsForSale[k].price
    ensures t.shop.itemsForSale[k].stock > 0 ==>
              BuyItem(t, k).shop.itemsForSale[k].stock == t.shop.itemsForSale[k].stock - 1
  {
  }

  /** The two purchases differ exactly when the gold is there, the unit does not fit and the
      stock is finite and positive: then only this one counts the stock down. */
  lemma BuyDivergence(t: Trade, k: nat)
    requires k < |t.shop.itemsForSale|
    ensures var d := t.shop.itemsForSale[k];
      BuyItem(t, k) != ShopManager.BuyItem(t, k) <==>
        Currency.HasEnoughGold(t.wallet, d.price) && !Inventory.AddItem(t.inv, Some(d.item), 1).added && d.stock > 0
  {
    var d := t.shop.itemsForSale[k];
    if Currency.HasEnoughGold(t.wallet, d.price) && !Inventory.AddItem(t.inv, Some(d.item), 1).added && d.stock > 0 {
      assert BuyItem(t, k).shop.itemsForSale[k].stock != ShopManager.BuyItem(t, k).shop.itemsForSale[k].stock;
    }
  }

  /** `SellItem`: one unit from the first slot holding the item, and gold only if one was found. */
  function SellItem(t: Trade, item: Item, price: int): (r: Trade)
    ensures Inventory.FirstHolding(t.inv, item, 0).None? ==> r == t
    ensures Inventory.FirstHolding(t.inv, item, 0).Some? ==>
              && r.wallet.gold == t.wallet.gold + price
              && r.wallet == Currency.AddGold(t.wallet, price)
              && r.inv == Inventory.RemoveItem(t.inv, Inventory.FirstHolding(t.inv, item, 0).value, 1)
              && Inventory.ItemCount(r.inv, item) == Inventory.ItemCount(t.inv, item) - 1
              && r.shop == t.shop
  {
    SellOne(t, item, price)
  }

  /** Both front-ends complete a sale identically. */
  lemma SellAgrees(t: Trade, item: Item, price: int)
    ensures SellItem(t, item, price) == ShopManager.SellItem(t, item, price)
  {
  }

  /** The sell price `SelectItem` quotes: the catalogue entry's sell price whenever the open
      shop has an entry, even a zero or negative one; otherwise half the base value. */
  function QuotedSellPrice(currentShop: Option<ShopInventory>, item: Item): (p: int)
    ensures var entry := if currentShop.Some? then GetItemData(currentShop.value, item) else None;
      && (entry.Some? ==> p == entry.value.sellPrice)
      && (entry.None? ==> p == HalfPrice(item.baseValue))
  {
    var entry := if currentShop.Some? then GetItemData(currentShop.value, item) else None;
    if entry.Some? then entry.value.sellPrice else HalfPrice(item.baseValue)
  }

  /** The quotes differ exactly when an entry exists whose sell price is not positive and
      differs from half the base value. */
  lemma SellPriceDivergence(currentShop: Option<ShopInventory>, item: Item)
    ensures var entry := if currentShop.Some? then GetItemData(currentShop.value, item) else None;
      QuotedSellPrice(currentShop, item) != ShopManager.CalculateSellPrice(currentShop, item) <==>
        entry.Some? && entry.value.sellPrice <= 0 && entry.value.sellPrice != HalfPrice(item.baseValue)
  {
  }

  /** `LoadShopItems`: every catalogue entry, sold-out ones included. */
  function LoadShopItems(currentShop: Option<ShopInventory>): (r: seq<ShopItemData>)
    ensures currentShop.None? ==> r == []
    ensures currentShop.Some? ==> r == currentShop.value.itemsForSale
  {
    if currentShop.None? then [] else currentShop.value.itemsForSale
  }

  /** `LoadPlayerItems`: every non-empty slot, sellable or not, one tile per slot. */
  function LoadPlayerItems(inv: Inventory.Inventory): (r: seq<Inventory.Slot>)
    ensures forall s :: s in r <==> s in inv && !s.IsEmpty()
    ensures |r| == Inventory.UsedSlots(inv)
    decreases |inv|
  {
    if |inv| == 0 then []
    else
      var n := |inv| - 1;
      LoadPlayerItems(inv[..n]) + (if inv[n].IsEmpty() then [] else [inv[n]])
  }

  /** One tile per non-empty slot: each occupied slot is listed as often as the inventory holds
      it, and an empty one never is. */
  lemma {:induction false} LoadPlayerItemsCounts(inv: Inventory.Inventory)
    ensures forall s :: multiset(LoadPlayerItems(inv))[s] == (if s.IsEmpty() then 0 else multiset(inv)[s])
    decreases |inv|
  {
    if |inv| > 0 {
      var n := |inv| - 1;
      LoadPlayerItemsCounts(inv[..n]);
      assert inv == inv[..n] + [inv[n]];
    }
  }

  /** The list is built slot by slot: listing a concatenation lists each part, so the tiles
      follow inventory order. */
  lemma {:induction false} LoadPlayerItemsConcat(a: Inventory.Inventory, b: Inventory.Inventory)
    ensures LoadPlayerItems(a + b) == LoadPlayerItems(a) + LoadPlayerItems(b)
    decreases |b|
  {
    if |b| == 0 {
      assert a + b == a;
    } else {
      var n := |b| - 1;
      var x := b[n];
      var last := if x.IsEmpty() then [] else [x];
      calc {
        LoadPlayerItems(a + b);
      == { assert (a + b)[..|a + b| - 1] == a + b[..n]; }
        LoadPlayerItems(a + b[..n]) + last;
      == { LoadPlayerItemsConcat(a, b[..n]); }
        (LoadPlayerItems(a) + LoadPlayerItems(b[..n])) + last;
      ==
        LoadPlayerItems(a) + (LoadPlayerItems(b[..n]) + last);
      ==
        LoadPlayerItems(a) + LoadPlayerItems(b);
      }
    }
  }


  /** This front-end's sell list contains the other one's. */
  lemma SellListsNested(inv: Inventory.Inventory)
    ensures forall s :: s in ShopManager.LoadPlayerItems(inv) ==> s in LoadPlayerItems(inv)
  {
  }

  /** `SelectItem`: the buy offer as in the main front-end, the sell offer at this front-end's quote. */
  function SelectItem(p: Panel, w: Currency.Wallet, item: Item, entry: Option<ShopItemData>): (r: ShopManager.Selection)
    ensures r.panel == p.(selectedItem := Some(item), infoOpen := true)
    ensures p.isBuying && entry.Some? ==>
              r.offer.BuyOffer? && r.offer.entry == entry.value
              && (r.offer.canAfford <==> w.gold >= entry.value.price)
    ensures !(p.isBuying && entry.Some?) ==> r.offer == ShopManager.SellOffer(item, QuotedSellPrice(p.currentShop, item))
  {
    var panel := p.(selectedItem := Some(item), infoOpen := true);
    if p.isBuying && entry.Some? then
      ShopManager.Selection(panel, ShopManager.BuyOffer(entry.value, Currency.HasEnoughGold(w, entry.value.price)))
    else
      ShopManager.Selection(panel, ShopManager.SellOffer(item, QuotedSellPrice(p.currentShop, item)))
  }

  /** `OpenShop` for a shop that exists. The model assumes the name and shopkeeper widgets are
      assigned; with them assigned, a missing shop would be dereferenced. */
  function OpenShop(p: Panel, shop: ShopInventory): (r: Panel)
    ensures r.shopOpen && r.currentShop == Some(shop) && r.isBuying && !r.infoOpen
    ensures r.selectedItem == p.selectedItem
  {
    p.(shopOpen := true, currentShop := Some(shop), isBuying := true, infoOpen := false)
  }

  function CloseShop(p: Panel): (r: Panel)
    ensures !r.shopOpen && !r.infoOpen && r.selectedItem.None?
    ensures r.currentShop == p.currentShop
  {
    p.(shopOpen := false, infoOpen := false, selectedItem := None)
  }

  /** `ToggleShop` (run on every B press): closes an open window and clears the selection;
      reopens a closed one only when a shop was opened before. */
  function ToggleShop(p: Panel): (r: Panel)
    ensures p.shopOpen ==> !r.shopOpen && r.selectedItem.None? && r.currentShop == p.currentShop
    ensures !p.shopOpen && p.currentShop.None? ==> r == p
    ensures !p.shopOpen && p.currentShop.Some? ==> r.shopOpen && r.isBuying && r.currentShop == p.currentShop
  {
    if p.shopOpen then CloseShop(p)
    else if p.currentShop.Some? then OpenShop(p, p.currentShop.value)
    else p
  }

  /** Both front-ends toggle alike. */
  lemma ToggleAgrees(p: Panel)
    ensures ToggleShop(p) == (if p.shopOpen || p.currentShop.Some? then ShopManager.ToggleShop(p) else p)
  {
  }
}
