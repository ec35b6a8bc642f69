/** The main shop front-end (`ShopManager`): buy and sell transactions, the sell price it
    quotes, the lists it shows and the opening and closing of its window. */
module ShopManager {
  import opened Options
  import opened Items
  import opened ShopCatalog
  import Inventory
  import Currency

  /** `BuyItem`: pays the price, then adds one unit; only when the unit fits is the stock
      counted down. When the gold is spent but the inventory is full, the gold is not
      refunded. */
  function BuyItem(t: Trade, k: nat): (r: Trade)
    requires k < |t.shop.itemsForSale|
    ensures var d := t.shop.itemsForSale[k];
      && (!Currency.HasEnoughGold(t.wallet, d.price) ==> r == t)
      && (Currency.HasEnoughGold(t.wallet, d.price) ==>
            r.wallet == Currency.Wallet(t.wallet.gold - d.price, t.wallet.gems))
    ensures var d := t.shop.itemsForSale[k];
      var added := Inventory.AddItem(t.inv, Some(d.item), 1).added;
      && (Currency.HasEnoughGold(t.wallet, d.price) && !added ==> r.inv == t.inv && r.shop == t.shop)
      && (Currency.HasEnoughGold(t.wallet, d.price) && added ==>
            && r.inv == Inventory.AddItem(t.inv, Some(d.item), 1).inv
            && Inventory.ItemCount(r.inv, d.item) == Inventory.ItemCount(t.inv, d.item) + 1
            && r.shop == RecordSale(t.shop, k))
  {
    var d := t.shop.itemsForSale[k];
    var spend := Currency.SpendGold(t.wallet, d.price);
    if !spend.ok then t
    else
      var add := Inventory.AddItem(t.inv, Some(d.item), 1);
      if add.added then Trade(spend.wallet, add.inv, RecordSale(t.shop, k))
      else Trade(spend.wallet, t.inv, t.shop)
  }

  /** An entry with infinite stock stays infinite however often it is bought. */
  lemma InfiniteStockStaysInfinite(t: Trade, k: nat)
    requires k < |t.shop.itemsForSale| && t.shop.itemsForSale[k].stock == InfiniteStock
    ensures BuyItem(t, k).shop.itemsForSale[k].stock == InfiniteStock
  {
  }

  /** A purchase never raises an entry's stock, and never takes a finite stock below zero. */
  lemma StockNeverIncreases(t: Trade, k: nat)
    requires k < |t.shop.itemsForSale|
    ensures BuyItem(t, k).shop.itemsForSale[k].stock <= t.shop.itemsForSale[k].stock
    ensures t.shop.itemsForSale[k].stock >= 0 ==> BuyItem(t, k).shop.itemsForSale[k].stock >= 0
  {
  }

  /** `SellItem`: one unit from the first slot holding the item, paid at the quoted price. */
  function SellItem(t: Trade, item: Item, price: int): (r: Trade)
    ensures Inventory.FirstHolding(t.inv, item, 0).None? ==> r == t
    ensures Inventory.FirstHolding(t.inv, item, 0).Some? ==>
              && r.wallet.gold == t.wallet.gold + price
              && r.wallet == Currency.AddGold(t.wallet, price)
              && r.inv == Inventory.RemoveItem(t.inv, Inventory.FirstHolding(t.inv, item, 0).value, 1)
              && Inventory.ItemCount(r.inv, item) == Inventory.ItemCount(t.inv, item) - 1
              && r.shop == t.shop
  {
    SellOne(t, item, price)
  }

  /** `CalculateSellPrice`: the open shop's positive sell price for the item when it has one,
      otherwise half the item's base value. */
  function CalculateSellPrice(currentShop: Option<ShopInventory>, item: Item): (p: int)
    ensures var entry := if currentShop.Some? then GetItemData(currentShop.value, item) else None;
      && (entry.Some? && entry.value.sellPrice > 0 ==> p == entry.value.sellPrice)
      && (!(entry.Some? && entry.value.sellPrice > 0) ==> p == HalfPrice(item.baseValue))
  {
    if currentShop.Some? && GetItemData(currentShop.value, item).Some?
       && GetItemData(currentShop.value, item).value.sellPrice > 0
    then GetItemData(currentShop.value, item).value.sellPrice
    else HalfPrice(item.baseValue)
  }

  /** The quoted sell price is positive whenever the item is worth more than one gold. */
  lemma SellPricePositive(currentShop: Option<ShopInventory>, item: Item)
    requires item.baseValue >= 2
    ensures CalculateSellPrice(currentShop, item) >= 1
  {
  }

  /** `LoadShopItems`: the entries with stock other than zero, in catalogue order; none without a shop. */
  function LoadShopItems(currentShop: Option<ShopInventory>): (r: seq<ShopItemData>)
    ensures currentShop.None? ==> r == []
    ensures currentShop.Some? ==> forall d :: d in r <==> d in currentShop.value.itemsForSale && d.stock != 0
    ensures currentShop.Some? ==> |r| <= |currentShop.value.itemsForSale|
    ensures currentShop.Some? ==>
              forall d :: multiset(r)[d] == (if d.stock != 0 then multiset(currentShop.value.itemsForSale)[d] else 0)
  {
    if currentShop.None? then []
    else InStock(currentShop.value.itemsForSale)
  }

  function InStock(entries: seq<ShopItemData>): (r: seq<ShopItemData>)
    ensures forall d :: d in r <==> d in entries && d.stock != 0
    ensures forall d :: multiset(r)[d] == (if d.stock != 0 then multiset(entries)[d] else 0)
    ensures |r| <= |entries|
    decreases |entries|
  {
    if |entries| == 0 then []
    else
      assert entries == [entries[0]] + entries[1..];
      (if entries[0].stock != 0 then [entries[0]] else []) + InStock(entries[1..])
  }

  /** The filter works entry by entry: filtering a concatenation filters each part, so the
      entries kept stay in catalogue order. */
  lemma {:induction false} InStockConcat(a: seq<ShopItemData>, b: seq<ShopItemData>)
    ensures InStock(a + b) == InStock(a) + InStock(b)
    decreases |a|
  {
    if |a| == 0 {
      assert a + b == b;
    } else {
      assert (a + b)[1..] == a[1..] + b;
      InStockConcat(a[1..], b);
    }
  }

  /** `LoadPlayerItems`: the non-empty slots whose item may be sold, in inventory order. */
  function LoadPlayerItems(inv: Inventory.Inventory): (r: seq<Inventory.Slot>)
    ensures forall s :: s in r <==> s in inv && !s.IsEmpty() && s.item.value.isSellable
    ensures forall s :: multiset(r)[s] == (if !s.IsEmpty() && s.item.value.isSellable then multiset(inv)[s] else 0)
    ensures |r| <= |inv|
    decreases |inv|
  {
    if |inv| == 0 then []
    else
      assert inv == [inv[0]] + inv[1..];
      (if !inv[0].IsEmpty() && inv[0].item.value.isSellable then [inv[0]] else []) + LoadPlayerItems(inv[1..])
  }

  /** The sell list is built slot by slot: listing a concatenation lists each part, so the
      tiles follow inventory order. */
  lemma {:induction false} LoadPlayerItemsConcat(a: Inventory.Inventory, b: Inventory.Inventory)
    ensures LoadPlayerItems(a + b) == LoadPlayerItems(a) + LoadPlayerItems(b)
    decreases |a|
  {
    if |a| == 0 {
      assert a + b == b;
    } else {
      assert (a + b)[1..] == a[1..] + b;
      LoadPlayerItemsConcat(a[1..], b);
    }
  }

  /** What the item information panel offers after a selection. */
  datatype Offer = BuyOffer(entry: ShopItemData, canAfford: bool) | SellOffer(item: Item, price: int)

  datatype Selection = Selection(panel: Panel, offer: Offer)

  /** `SelectItem`: on the buy tab with a catalogue entry, a purchase offer whose buy button is
      enabled exactly when the purse covers the price; otherwise a sale at the quoted price. */
  function SelectItem(p: Panel, w: Currency.Wallet, item: Item, entry: Option<ShopItemData>): (r: Selection)
    ensures r.panel == p.(selectedItem := Some(item), infoOpen := true)
    ensures p.isBuying && entry.Some? ==>
              r.offer.BuyOffer? && r.offer.entry == entry.value
              && (r.offer.canAfford <==> w.gold >= entry.value.price)
    ensures !(p.isBuying && entry.Some?) ==>
              r.offer == SellOffer(item, CalculateSellPrice(p.currentShop, item))
  {
    var panel := p.(selectedItem := Some(item), infoOpen := true);
    if p.isBuying && entry.Some? then
      Selection(panel, BuyOffer(entry.value, Currency.HasEnoughGold(w, entry.value.price)))
    else
      Selection(panel, SellOffer(item, CalculateSellPrice(p.currentShop, item)))
  }

  /** `OpenShop`: ignored without a shop; otherwise shows it on the buy tab with the info panel hidden. */
  function OpenShop(p: Panel, shop: Option<ShopInventory>): (r: Panel)
    ensures shop.None? ==> r == p
    ensures shop.Some? ==> r.shopOpen && r.currentShop == shop && r.isBuying && !r.infoOpen
    ensures r.selectedItem == p.selectedItem
  {
    if shop.None? then p
    else p.(shopOpen := true, currentShop := shop, isBuying := true, infoOpen := false)
  }

  /** `CloseShop`: hides both panels and forgets the selection; the shop is remembered. */
  function CloseShop(p: Panel): (r: Panel)
    ensures !r.shopOpen && !r.infoOpen && r.selectedItem.None?
    ensures r.currentShop == p.currentShop && r.isBuying == p.isBuying
  {
    p.(shopOpen := false, infoOpen := false, selectedItem := None)
  }

  function ToggleShop(p: Panel): (r: Panel)
    ensures p.shopOpen ==> r == CloseShop(p)
    ensures !p.shopOpen ==> r == OpenShop(p, p.currentShop)
  {
    if p.shopOpen then CloseShop(p) else OpenShop(p, p.currentShop)
  }

  /** One frame of `Update`: B toggles only once a shop has been opened, then Escape closes an open window. */
  function Frame(p: Panel, bPressed: bool, escapePressed: bool): (r: Panel)
    ensures !bPressed && !escapePressed ==> r == p
    ensures escapePressed && (p.shopOpen || (bPressed && p.currentShop.Some?)) ==> !r.shopOpen && r.selectedItem.None?
    ensures !bPressed && escapePressed && p.shopOpen ==> r == CloseShop(p)
    ensures bPressed && escapePressed && p.currentShop.Some? && !p.shopOpen ==> r == CloseShop(ToggleShop(p))
    ensures r.currentShop == p.currentShop
    ensures bPressed && !escapePressed && p.currentShop.Some? ==> r == ToggleShop(p)
    ensures bPressed && p.currentShop.None? && !(escapePressed && p.shopOpen) ==> r == p
    ensures !bPressed && escapePressed && !p.shopOpen ==> r == p
  {
    var afterB := if bPressed && p.currentShop.Some? then ToggleShop(p) else p;
    if afterB.shopOpen && escapePressed then CloseShop(afterB) else afterB
  }

  /** Toggling twice from an open window with a shop reopens it on the buy tab. */
  lemma ToggleCloseThenOpen(p: Panel)
    requires p.shopOpen && p.currentShop.Some?
    ensures var q := ToggleShop(ToggleShop(p));
      q.shopOpen && q.isBuying && !q.infoOpen && q.selectedItem.None? && q.currentShop == p.currentShop
  {
  }
}
