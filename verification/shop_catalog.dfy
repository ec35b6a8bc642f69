/** A shop's catalogue (`ShopInventory` and `ShopItemData`) and the state the two shop
    front-ends share: the purse, the inventory and the catalogue a purchase changes. */
module ShopCatalog {
  import opened Options
  import opened Items
  import Rounding
  import Inventory
  import Currency

  /** Stock value meaning the shop never runs out. */
  const InfiniteStock: int := -1

  /** One catalogue entry. */
  datatype ShopItemData = ShopItemData(item: Item, price: int, sellPrice: int, stock: int)

  /** An entry as the serializer creates it, with the field initialisers. */
  function SerializedEntry(item: Item): (d: ShopItemData)
    ensures d.item == item && d.price == 10 && d.sellPrice == 5 && d.stock == InfiniteStock
  {
    ShopItemData(item, 10, 5, InfiniteStock)
  }

  /** Half the value, rounded to the nearest integer with ties to even: the price the game
      offers for an item when nothing more specific applies. */
  function HalfPrice(value: int): (r: int)
    ensures Rounding.IsHalfRoundedToEven(value, r)
  {
    Rounding.HalfRoundedToEven(value)
  }

  /** The entry constructor: a positive sell price is kept, anything else becomes half the price. */
  function NewShopItemData(item: Item, price: int, sellPrice: int := -1, stock: int := InfiniteStock): (d: ShopItemData)
    ensures d.item == item && d.price == price && d.stock == stock
    ensures sellPrice > 0 ==> d.sellPrice == sellPrice
    ensures sellPrice <= 0 ==> Rounding.IsHalfRoundedToEven(price, d.sellPrice)
    ensures d.sellPrice > 0 || price <= 1
  {
    ShopItemData(item, price, if sellPrice > 0 then sellPrice else HalfPrice(price), stock)
  }

  datatype ShopInventory = ShopInventory(shopName: string, itemsForSale: seq<ShopItemData>)

  function NewShopInventory(): (s: ShopInventory)
    ensures s.shopName == "Shop" && s.itemsForSale == []
  {
    ShopInventory("Shop", [])
  }

  /** Index of the first entry selling `item`, at or after `from`. */
  function FindEntry(entries: seq<ShopItemData>, item: Item, from: nat): (r: Option<nat>)
    requires from <= |entries|
    ensures r.Some? ==> from <= r.value < |entries| && entries[r.value].item == item
    ensures r.Some? ==> forall j :: from <= j < r.value ==> entries[j].item != item
    ensures r.None? ==> forall j :: from <= j < |entries| ==> entries[j].item != item
    decreases |entries| - from
  {
    if from == |entries| then None
    else if entries[from].item == item then Some(from)
    else FindEntry(entries, item, from + 1)
  }

  /** `GetItemData`: the first entry for the item, or none when the shop does not sell it. */
  function GetItemData(shop: ShopInventory, item: Item): (r: Option<ShopItemData>)
    ensures r.None? <==> forall j :: 0 <= j < |shop.itemsForSale| ==> shop.itemsForSale[j].item != item
    ensures r.Some? ==> exists k :: 0 <= k < |shop.itemsForSale| && shop.itemsForSale[k] == r.value
                           && r.value.item == item
                           && forall j :: 0 <= j < k ==> shop.itemsForSale[j].item != item
  {
    match FindEntry(shop.itemsForSale, item, 0)
    case None => None
    case Some(k) => Some(shop.itemsForSale[k])
  }

  /** What buying one unit does to an entry's stock: a positive stock goes down by one, zero
      and the infinite marker are left alone. */
  function AfterSale(d: ShopItemData): (r: ShopItemData)
    ensures r.item == d.item && r.price == d.price && r.sellPrice == d.sellPrice
    ensures d.stock > 0 ==> r.stock == d.stock - 1
    ensures d.stock <= 0 ==> r.stock == d.stock
  {
    if d.stock > 0 then d.(stock := d.stock - 1) else d
  }

  /** The world a transaction changes. */
  datatype Trade = Trade(wallet: Currency.Wallet, inv: Inventory.Inventory, shop: ShopInventory)

  /** Sells one unit from entry `k`: the stock bookkeeping of a completed purchase. */
  function RecordSale(shop: ShopInventory, k: nat): (r: ShopInventory)
    requires k < |shop.itemsForSale|
    ensures r.shopName == shop.shopName && |r.itemsForSale| == |shop.itemsForSale|
    ensures r.itemsForSale[k] == AfterSale(shop.itemsForSale[k])
    ensures forall j :: 0 <= j < |shop.itemsForSale| && j != k ==> r.itemsForSale[j] == shop.itemsForSale[j]
  {
    shop.(itemsForSale := shop.itemsForSale[k := AfterSale(shop.itemsForSale[k])])
  }

  /** Open/closed state of a shop window, shared by both front-ends. */
  datatype Panel = Panel(
    shopOpen: bool,
    infoOpen: bool,
    currentShop: Option<ShopInventory>,
    selectedItem: Option<Item>,
    isBuying: bool)

  /** The window as a scene starts it: closed, no shop, buy tab. */
  const ClosedPanel: Panel := Panel(false, false, None, None, true)

  /** Removes one unit of `item` from the first slot holding it and pays `price`; with no
      such slot nothing happens. Both front-ends sell this way. */
  function SellOne(t: Trade, item: Item, price: int): (r: Trade)
    ensures Inventory.FirstHolding(t.inv, item, 0).None? ==> r == t
    ensures Inventory.FirstHolding(t.inv, item, 0).Some? ==>
              && r.wallet == Currency.AddGold(t.wallet, price)
              && r.shop == t.shop
              && r.inv == Inventory.RemoveItem(t.inv, Inventory.FirstHolding(t.inv, item, 0).value, 1)
              && Inventory.ItemCount(r.inv, item) == Inventory.ItemCount(t.inv, item) - 1
  {
    match Inventory.FirstHolding(t.inv, item, 0)
    case None => t
    case Some(k) =>
      Trade(Currency.AddGold(t.wallet, price), Inventory.RemoveItem(t.inv, k, 1), t.shop)
  }

  /** Selling never changes the count of any other item. */
  lemma SellOneOtherItemsUnchanged(t: Trade, item: Item, price: int, other: Item)
    requires other != item
    ensures Inventory.ItemCount(SellOne(t, item, price).inv, other) == Inventory.ItemCount(t.inv, other)
  {
  }
}
