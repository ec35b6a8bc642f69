/** One tile of the shop's sell list (`PlayerItemUI`): the item's name, quantity, suggested
    sell price and a rarity tint derived from its base value. */
module PlayerItemUI {
  import opened Options
  import opened Items
  import opened ShopCatalog
  import Text
  import Rounding
  import Inventory
  import Currency
  import ShopManager

  /** The tint tiers, cheapest first. */
  datatype Rarity = Common | Uncommon | Rare | Epic | Legendary

  function Rank(r: Rarity): nat {
    match r
    case Common => 0
    case Uncommon => 1
    case Rare => 2
    case Epic => 3
    case Legendary => 4
  }

  /** The lowest base value that earns each tier. */
  function Threshold(r: Rarity): int {
    match r
    case Common => 0
    case Uncommon => 10
    case Rare => 25
    case Epic => 50
    case Legendary => 100
  }

  /** `GetRarityColor`: the highest tier whose threshold the base value reaches; anything
      below 10, negative values included, is common. */
  function RarityOf(value: int): (r: Rarity)
    ensures r != Common ==> value >= Threshold(r)
    ensures r != Legendary ==> value < Threshold(NextTier(r))
  {
    if value >= 100 then Legendary
    else if value >= 50 then Epic
    else if value >= 25 then Rare
    else if value >= 10 then Uncommon
    else Common
  }

  function NextTier(r: Rarity): Rarity
    requires r != Legendary
  {
    match r
    case Common => Uncommon
    case Uncommon => Rare
    case Rare => Epic
    case Epic => Legendary
  }

  /** A value reaches a non-common tier or better exactly when it reaches that tier's threshold. */
  lemma RarityAtLeast(value: int, t: Rarity)
    requires t != Common
    ensures Rank(RarityOf(value)) >= Rank(t) <==> value >= Threshold(t)
  {
  }

  /** A dearer item never gets a lower tier. */
  lemma RarityMonotone(a: int, b: int)
    requires a <= b
    ensures Rank(RarityOf(a)) <= Rank(RarityOf(b))
  {
  }

  /** `CalculateSellPrice`: half the base value, rounded; the shop's own entry is never consulted. */
  function CalculateSellPrice(item: Item): (p: int)
    ensures Rounding.IsHalfRoundedToEven(item.baseValue, p)
    ensures item.baseValue >= 0 ==> p >= 0
  {
    HalfPrice(item.baseValue)
  }

  /** What a tile shows. */
  datatype Tile = Tile(
    item: Item,
    quantity: int,
    nameText: string,
    quantityText: string,
    sellPrice: int,
    sellPriceText: string,
    rarity: Rarity,
    isFavorite: bool)

  /** `Initialize` for a non-empty slot (the source reads the slot's item unguarded). The
      favourite marker is a die roll, passed in as `roll` in [0, 1). */
  function Initialize(slot: Inventory.Slot, roll: real): (t: Tile)
    requires slot.item.Some?
    ensures t.item == slot.item.value && t.quantity == slot.quantity
    ensures t.nameText == slot.item.value.itemName
    ensures |t.quantityText| >= 1 && t.quantityText[..1] == "x" && Text.ParseInt(t.quantityText[1..]) == Text.IntValue(slot.quantity)
    ensures t.sellPrice == CalculateSellPrice(slot.item.value)
    ensures |t.sellPriceText| >= 1 && t.sellPriceText[|t.sellPriceText| - 1..] == "G"
    ensures Text.ParseInt(t.sellPriceText[..|t.sellPriceText| - 1]) == Text.IntValue(t.sellPrice)
    ensures t.rarity == RarityOf(slot.item.value.baseValue)
    ensures t.isFavorite <==> roll < 0.1
  {
    var it := slot.item.value;
    var price := CalculateSellPrice(it);
    Text.IntToStringRoundTrip(slot.quantity);
    Text.IntToStringRoundTrip(price);
    var qText := "x" + Text.IntToString(slot.quantity);
    var pText := Text.IntToString(price) + "G";
    assert qText[1..] == Text.IntToString(slot.quantity);
    assert pText[..|pText| - 1] == Text.IntToString(price);
    Tile(it, slot.quantity, it.itemName, qText, price, pText, RarityOf(it.baseValue), roll < 0.1)
  }

  /** `OnClick`: selects the tile's item in the shop with no catalogue entry, which always
      yields a sale offer. */
  function OnClick(p: Panel, w: Currency.Wallet, t: Tile): (r: ShopManager.Selection)
    ensures r.offer.SellOffer? && r.offer.item == t.item
    ensures r.panel.selectedItem == Some(t.item) && r.panel.infoOpen
  {
    ShopManager.SelectItem(p, w, t.item, None)
  }

  /** The price a tile displays is the price the click offers unless the open shop lists the
      item with a positive sell price of its own that differs from half the base value. */
  lemma TilePriceMatchesOffer(p: Panel, w: Currency.Wallet, t: Tile)
    requires t.sellPrice == CalculateSellPrice(t.item)
    ensures var entry := if p.currentShop.Some? then GetItemData(p.currentShop.value, t.item) else None;
      OnClick(p, w, t).offer.price != t.sellPrice <==>
        entry.Some? && entry.value.sellPrice > 0 && entry.value.sellPrice != HalfPrice(t.item.baseValue)
  {
  }
}
