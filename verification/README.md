# Game-logic core of a 2D action RPG, in Dafny

This project models the rules behind a small Unity action RPG. Rendering, physics and
scene wiring are left out. The parts modelled are:

- **The player** (`Player`): class stats, three ability slots with cooldowns, the
  experience and level-up loop, damage and healing, and the per-frame input handling.
- **The Necromancy class's shadow bolt** (`Necromancy`): its null checks and its mana gate.
- **The enemy**:
  - its behaviour state machine with hysteresis, a leash and stuns (`EnemyAI`);
  - its life cycle of damage, death, XP reward, disabling and respawn (`EnemyHealth`);
  - its shot timer (`EnemyShooter`).
- **The inventory** (`Items`, `Inventory`): item assets and their tooltips, and the slot
  list with stacking, removal, use, swapping and counting.
- **Two inventory views**:
  - the always-on strip, with quick-use keys and notifications (`InventoryHUD`);
  - the full window, with its information panel (`InventoryUI`).
- **The shop**: the purse (`Currency`) and the shop catalogue (`ShopCatalog`). It has two
  front-ends that differ in their details: `ShopManager` and `ShopUI`. The tiles `ShopUI`
  builds are wired to `ShopManager`, so in these scripts its own selection, purchase and
  sale are never reached from a click. `PlayerItemUI` is
  the tile of the sell list.

Shared infrastructure:

- `Options`: nullable references.
- `Rounding`: the engine's round-half-to-even of `x * 0.5`.
- `Text`: decimal rendering of integers, with a parser that proves every displayed
  number can be read back.

Modelling conventions:

- Single-precision floats (cooldowns, health, distances, time) are modelled as exact
  `real` numbers.
- Item assets are compared by reference in the game. Here they are an `Item` datatype
  whose `id` field stands for that identity.
- Every component is a pure function from its state and inputs to its new state:
  - a frame's key presses, `Time.deltaTime` and the distances the physics engine
    reports are parameters;
  - so is the one random roll (the favourite marker of a sell tile).

The model follows the code as written, including these behaviours:

- The player has no lives, no invulnerability window and no respawn. `Die` only
  deactivates the game object.
- `TakeDamage` applies its body twice: the amount lands twice, and the death routine
  runs at most once.
- The ability methods check the cooldown, run the class ability, and then arm the cooldown
  whatever the ability did. So a Necromancy bolt refused for lack of mana still starts the
  primary cooldown.
- The experience curve rounds ties to even (`Mathf.RoundToInt`), not away from zero.
- Respawning restores full health and re-enables the components. Aggro is cleared only
  through the AI's own reset hook.
- Each stun starts its own coroutine. Overlapping stuns can therefore leave the enemy
  stunned after both have run out: there is no single stun slot. It stays stunned until it
  is hit again, because `EnemyHealth.TakeDamage` calls `StartChasing` on an enemy that is
  not chasing.

## Model

| member | source | states |
|---|---|---|
| `Rounding.HalfRoundedToEven` | Assets/Scripts/Shop/ShopInventory.cs:29 | the result is within one half of x/2, and an exact tie goes to the even neighbour |
| `Rounding.HalfRoundedToEvenUnique` | Assets/Scripts/Shop/ShopInventory.cs:29 | any value meeting the rounding rule is the computed one, so the rule fully determines `Mathf.RoundToInt(x * 0.5f)` |
| `Rounding.HalfRoundedToEvenMonotone` | Assets/Scripts/Shop/ShopInventory.cs:29 | a larger price never rounds to a lower half price |
| `Rounding.HalfRoundedToEvenNonNegative` | Assets/Scripts/Inventory/PlayerItemUI.cs:67-72 | a non-negative value never has a negative half price |
| `Text.IntToStringRoundTrip` | Assets/Scripts/Inventory/PlayerItemUI.cs:41-46 | every integer the interface prints parses back to the same integer |
| `Text.RatioTextRoundTrip` | Assets/Scripts/Inventory/InventoryUI.cs:147-151 | the "used/total" text parses back to exactly the two counts |
| `Items.NewItem` | Assets/Scripts/Inventory/Item.cs:7-20 | a new item asset carries the class's field defaults: name, description, value 10, stackable to 99, not usable, sellable |
| `Items.NewConsumable` | Assets/Scripts/Inventory/Item.cs:34-38 | a consumable is the item defaults plus 20 HP and 10 MP restores |
| `Items.GetTooltip` | Assets/Scripts/Inventory/Item.cs:22-51 | the tooltip starts with the description; for a plain item, and for a consumable with no positive restore, it is the description alone |
| `Items.ParseRestoreLine` | Assets/Scripts/Inventory/Item.cs:45-48 | one "\nRestores n HP/MP" line with a positive n reads back as its amount and unit |
| `Items.ParseAmountOf` | Assets/Scripts/Inventory/Item.cs:45-48 | a positive amount and its unit after a line's prefix read back as the number printed and its unit, leaving the rest of the text |
| `Items.ZeroLineRejected` | Assets/Scripts/Inventory/Item.cs:44-48 | a restore line with amount 0, which the tooltip never prints, is not accepted by the parser |
| `Items.ParseRestoreLinesOf` | Assets/Scripts/Inventory/Item.cs:44-50 | the restore lines read back as the positive parts of the two restore amounts |
| `Items.TooltipRestoresRoundTrip` | Assets/Scripts/Inventory/Item.cs:40-51 | the tooltip's tail after the description carries exactly the positive restore amounts, for every item |
| `Inventory.EmptyInventory` | Assets/Scripts/Inventory/InventoryManager.cs:57-63 | `size` cleared slots |
| `Inventory.UsedSlots` | Assets/Scripts/Inventory/InventoryManager.cs:17 | the number of non-empty slots is at most the number of slots |
| `Inventory.ItemCountUpdate` | Assets/Scripts/Inventory/InventoryManager.cs:215-226 | replacing one slot changes an item's count by exactly the difference of the old and new slot's shares |
| `Inventory.ItemCountUpdateAll` | Assets/Scripts/Inventory/InventoryManager.cs:215-226 | the same, for every item at once |
| `Inventory.UsedSlotsUpdate` | Assets/Scripts/Inventory/InventoryManager.cs:17 | replacing one slot changes the used-slot count by the change in that slot's emptiness |
| `Inventory.ItemCountPrefix` | Assets/Scripts/Inventory/InventoryManager.cs:201-213 | a prefix of the slots never holds more of an item than all of them |
| `Inventory.ItemCountPositive` | Assets/Scripts/Inventory/InventoryManager.cs:215-226 | an item's count is positive exactly when some slot holds a positive quantity of it |
| `Inventory.FirstAddable` | Assets/Scripts/Inventory/InventoryManager.cs:86-96 | the lowest slot from `from` that can take the amount, or none when no slot can |
| `Inventory.FirstEmpty` | Assets/Scripts/Inventory/InventoryManager.cs:108-117 | the lowest empty slot from `from`, or none when all are occupied |
| `Inventory.FirstHolding` | Assets/Scripts/Shop/ShopManager.cs:293-300 | the lowest slot from `from` holding the item, or none when no slot does |
| `Inventory.Placement` | Assets/Scripts/Inventory/InventoryManager.cs:84-121 | a stackable item goes to the first slot that can take the whole amount; any other item goes to the first empty slot; none exactly when no such slot exists |
| `Inventory.AddItem` | Assets/Scripts/Inventory/InventoryManager.cs:79-122 | succeeds exactly when the item exists, the amount is positive and a placement exists. On success that item's count grows by the amount and no other count changes. On failure nothing changes |
| `Inventory.InitializeInventory` | Assets/Scripts/Inventory/InventoryManager.cs:57-77 | `size` slots. When the configured or looked-up potion exists and there is a slot, exactly one slot is used and the inventory holds two of that potion; otherwise every slot is empty |
| `Inventory.NoneUsed` | Assets/Scripts/Inventory/InventoryManager.cs:57-63 | an inventory of empty slots has no used slot |
| `Inventory.RemoveItem` | Assets/Scripts/Inventory/InventoryManager.cs:159-175 | an out-of-range or empty slot is left alone. Otherwise the slot loses the amount and is cleared when nothing positive is left. Every other slot is unchanged |
| `Inventory.UseItem` | Assets/Scripts/Inventory/InventoryManager.cs:177-187 | a usable item in a non-empty slot loses one unit; anything else leaves the inventory unchanged |
| `Inventory.SwapSlots` | Assets/Scripts/Inventory/InventoryManager.cs:189-199 | two in-range slots are exchanged, otherwise nothing changes. The swap is a permutation that keeps every item count and the used-slot count |
| `Inventory.GetItemCount` | Assets/Scripts/Inventory/InventoryManager.cs:215-226 | the summing loop returns the total quantity of the item over non-empty slots |
| `Inventory.HasItem` | Assets/Scripts/Inventory/InventoryManager.cs:201-213 | the early-exit loop answers true exactly when the count is positive and reaches the amount |
| `Inventory.HasItemPositiveAmount` | Assets/Scripts/Inventory/InventoryManager.cs:201-213 | for a positive amount, HasItem is exactly "the count reaches the amount" |
| `Inventory.EarlierEmptySlotWins` | Assets/Scripts/Inventory/InventoryManager.cs:86-96 | an empty slot ahead of a partial stack takes the new items, and the stack is untouched |
| `Inventory.StackLimitIgnoredForEmptySlot` | Assets/Scripts/Inventory/InventoryManager.cs:26-32 | into an empty slot the whole amount goes, even past `maxStack` |
| `Inventory.FullInventoryRejects` | Assets/Scripts/Inventory/InventoryManager.cs:79-122 | with no slot able to take the amount, the add fails and changes nothing |
| `Currency.SpendGold` | Assets/Scripts/Shop/PlayerCurrency.cs:41-53 | succeeds exactly when the gold covers the amount and then takes exactly that amount; on failure the purse is unchanged |
| `Currency.AddGold` | Assets/Scripts/Shop/PlayerCurrency.cs:55-61 | the gold grows by the amount and the gems are untouched |
| `Currency.AddGems` | Assets/Scripts/Shop/PlayerCurrency.cs:63-69 | the gems grow by the amount and the gold is untouched |
| `Currency.AddGemsLeavesGoldAlone` | Assets/Scripts/Shop/PlayerCurrency.cs:36-69 | adding gems never changes whether a gold price is affordable or what a purchase leaves in gold; adding and then removing an amount restores the wallet |
| `Currency.AddTestGold` | Assets/Scripts/Shop/PlayerCurrency.cs:81-84 | the test helper is AddGold of 100 by default |
| `Currency.AddThenSpendRestores` | Assets/Scripts/Shop/PlayerCurrency.cs:41-61 | adding gold and then spending the same amount succeeds and gives back the original purse |
| `Currency.SpendKeepsGoldNonNegative` | Assets/Scripts/Shop/PlayerCurrency.cs:36-53 | a purse with no debt never goes into debt, whatever spends are attempted |
| `ShopCatalog.SerializedEntry` | Assets/Scripts/Shop/ShopInventory.cs:18-23 | a serialized entry has price 10, sell price 5 and infinite stock |
| `ShopCatalog.HalfPrice` | Assets/Scripts/Shop/ShopInventory.cs:29 | half the value, rounded to the nearest integer with ties to even |
| `ShopCatalog.NewShopItemData` | Assets/Scripts/Shop/ShopInventory.cs:25-31 | a positive sell price is kept, anything else becomes half the price; so the sell price is positive unless the price is at most 1 |
| `ShopCatalog.NewShopInventory` | Assets/Scripts/Shop/ShopInventory.cs:7-9 | a new catalogue is named "Shop" and sells nothing |
| `ShopCatalog.FindEntry` | Assets/Scripts/Shop/ShopInventory.cs:13 | the first entry from `from` selling the item, or none |
| `ShopCatalog.GetItemData` | Assets/Scripts/Shop/ShopInventory.cs:11-14 | none exactly when no entry sells the item, otherwise one of the shop's entries |
| `ShopCatalog.AfterSale` | Assets/Scripts/Shop/ShopManager.cs:276-279 | a positive stock drops by one; zero and infinite stock stay; nothing else in the entry changes |
| `ShopCatalog.RecordSale` | Assets/Scripts/Shop/ShopManager.cs:276-279 | only the sold entry changes, as AfterSale says |
| `ShopCatalog.SellOne` | Assets/Scripts/Shop/ShopManager.cs:287-309 | without a slot holding the item nothing happens; otherwise one unit leaves the first such slot and the price is paid |
| `ShopCatalog.SellOneOtherItemsUnchanged` | Assets/Scripts/Shop/ShopManager.cs:287-309 | a sale never changes the count of any other item |
| `ShopManager.BuyItem` | Assets/Scripts/Shop/ShopManager.cs:261-285 | an unaffordable price changes nothing. Otherwise the gold is paid. When the unit fits, the inventory is exactly the one `AddItem` gives and the stock drops; when it does not fit, the gold is not refunded |
| `ShopManager.InfiniteStockStaysInfinite` | Assets/Scripts/Shop/ShopManager.cs:276-279 | an infinite-stock entry stays infinite under any purchase |
| `ShopManager.StockNeverIncreases` | Assets/Scripts/Shop/ShopManager.cs:261-285 | a purchase never raises the stock and never takes a finite stock below zero |
| `ShopManager.SellItem` | Assets/Scripts/Shop/ShopManager.cs:287-309 | one unit is removed from the first slot holding the item, exactly as `RemoveItem` does, and the wallet is `AddGold` of the quoted price; nothing changes without such a slot |
| `ShopManager.CalculateSellPrice` | Assets/Scripts/Shop/ShopManager.cs:311-325 | the open shop's entry price when it is positive, otherwise half the item's base value |
| `ShopManager.SellPricePositive` | Assets/Scripts/Shop/ShopManager.cs:311-325 | an item worth 2 gold or more is always quoted at least 1 gold |
| `ShopManager.LoadShopItems` | Assets/Scripts/Shop/ShopManager.cs:172-195 | the catalogue entries whose stock is not zero, each as often as the catalogue lists it and no sold-out one; nothing without a shop |
| `ShopManager.InStock` | Assets/Scripts/Shop/ShopManager.cs:183-190 | the filter keeps exactly the entries that are not sold out, each as often as it is listed |
| `ShopManager.InStockConcat` | Assets/Scripts/Shop/ShopManager.cs:183-190 | the filter of a concatenation is the concatenation of the filters, so the tiles keep catalogue order |
| `ShopManager.LoadPlayerItems` | Assets/Scripts/Shop/ShopManager.cs:197-220 | exactly the non-empty slots whose item is sellable, one tile per such slot and none for any other |
| `ShopManager.LoadPlayerItemsConcat` | Assets/Scripts/Shop/ShopManager.cs:197-220 | the sell list of a concatenation is the concatenation of the lists, so the tiles keep inventory order |
| `ShopManager.SelectItem` | Assets/Scripts/Shop/ShopManager.cs:222-259 | records the selection and shows the panel. On the buy tab with an entry it is a purchase offer whose button is enabled exactly when the gold covers the price; otherwise it is a sell offer at CalculateSellPrice |
| `ShopManager.OpenShop` | Assets/Scripts/Shop/ShopManager.cs:100-124 | ignored without a shop; otherwise the shop is shown on the buy tab with the info panel hidden |
| `ShopManager.CloseShop` | Assets/Scripts/Shop/ShopManager.cs:126-136 | both panels hidden and the selection forgotten; the shop is remembered |
| `ShopManager.ToggleShop` | Assets/Scripts/Shop/ShopManager.cs:138-148 | an open window closes and a closed one reopens the remembered shop |
| `ShopManager.Frame` | Assets/Scripts/Shop/ShopManager.cs:85-98 | with no key nothing changes; B alone toggles once a shop is known and does nothing before; Escape closes an open window (as `CloseShop`), including one B has just opened, and does nothing to a closed one; the remembered shop never changes |
| `ShopManager.ToggleCloseThenOpen` | Assets/Scripts/Shop/ShopManager.cs:138-148 | toggling an open window twice reopens the same shop on the buy tab with nothing selected |
| `ShopUI.BuyItem` | Assets/Scripts/Shop/ShopUI.cs:229-251 | an unaffordable price changes nothing. Otherwise the gold is paid, one unit is offered to the inventory, and the stock counts down whether or not it fitted |
| `ShopUI.BuyIntoFullInventoryLosesPurchase` | Assets/Scripts/Shop/ShopUI.cs:229-251 | when the unit does not fit, the player pays, receives nothing, and a finite stock still drops |
| `ShopUI.BuyDivergence` | Assets/Scripts/Shop/ShopUI.cs:229-251 | the two front-ends' purchases differ exactly when the gold is there, the unit does not fit and the stock is positive |
| `ShopUI.SellItem` | Assets/Scripts/Shop/ShopUI.cs:253-280 | one unit is removed from the first slot holding the item, as `RemoveItem` does, and the wallet is `AddGold` of this front-end's price; the shop is untouched; nothing changes without such a slot |
| `ShopUI.SellAgrees` | Assets/Scripts/Shop/ShopUI.cs:253-280 | both front-ends complete a sale identically |
| `ShopUI.QuotedSellPrice` | Assets/Scripts/Shop/ShopUI.cs:206-213 | the entry's sell price whenever the open shop lists the item, even a non-positive one; otherwise half the base value |
| `ShopUI.SellPriceDivergence` | Assets/Scripts/Shop/ShopUI.cs:206-213 | the front-ends quote differently exactly when the entry's sell price is not positive and differs from the half value |
| `ShopUI.LoadShopItems` | Assets/Scripts/Shop/ShopUI.cs:139-159 | every catalogue entry, sold-out ones included; nothing without a shop |
| `ShopUI.LoadPlayerItems` | Assets/Scripts/Shop/ShopUI.cs:161-184 | a slot is listed exactly when it is non-empty, sellable or not, and there is one tile per used slot |
| `ShopUI.LoadPlayerItemsCounts` | Assets/Scripts/Shop/ShopUI.cs:161-184 | each non-empty slot is listed as often as the inventory holds it, and an empty one never is |
| `ShopUI.LoadPlayerItemsConcat` | Assets/Scripts/Shop/ShopUI.cs:161-184 | the list of a concatenation is the two lists joined, so the tiles follow inventory order |
| `ShopUI.SellListsNested` | Assets/Scripts/Shop/ShopUI.cs:161-184 | this front-end's sell list contains the other front-end's |
| `ShopUI.SelectItem` | Assets/Scripts/Shop/ShopUI.cs:186-227 | the same buy offer as the main front-end; the sell offer is at this front-end's quote |
| `ShopUI.OpenShop` | Assets/Scripts/Shop/ShopUI.cs:70-92 | the shop is shown on the buy tab with the info panel hidden; the selection is kept |
| `ShopUI.CloseShop` | Assets/Scripts/Shop/ShopUI.cs:94-104 | both panels hidden and the selection forgotten; the shop is remembered |
| `ShopUI.ToggleShop` | Assets/Scripts/Shop/ShopUI.cs:106-116 | closes an open window; reopens a remembered shop; does nothing when no shop was ever opened |
| `ShopUI.ToggleAgrees` | Assets/Scripts/Shop/ShopUI.cs:61-68 | whenever a shop is known or the window is open, both front-ends toggle identically |
| `PlayerItemUI.RarityOf` | Assets/Scripts/Inventory/PlayerItemUI.cs:74-84 | the highest tier whose threshold (10/25/50/100) the base value reaches, and below the next tier's threshold |
| `PlayerItemUI.RarityAtLeast` | Assets/Scripts/Inventory/PlayerItemUI.cs:74-84 | a value earns a tier or better exactly when it reaches that tier's threshold |
| `PlayerItemUI.RarityMonotone` | Assets/Scripts/Inventory/PlayerItemUI.cs:74-84 | a dearer item never gets a lower tier |
| `PlayerItemUI.CalculateSellPrice` | Assets/Scripts/Inventory/PlayerItemUI.cs:67-72 | half the base value rounded to the nearest integer, an exact half going to the even neighbour; never negative for a non-negative value |
| `PlayerItemUI.Initialize` | Assets/Scripts/Inventory/PlayerItemUI.cs:30-59 | the tile shows the slot's name, "x" and a quantity that parses back to the slot's quantity, and a price text ending in "G" that parses back to the sell price. The tint is the value's tier, and the favourite marker shows exactly when the roll is below 0.1 |
| `PlayerItemUI.OnClick` | Assets/Scripts/Inventory/PlayerItemUI.cs:61-65 | a click always produces a sell offer for the tile's item and shows the panel |
| `PlayerItemUI.TilePriceMatchesOffer` | Assets/Scripts/Inventory/PlayerItemUI.cs:61-72 | the tile's price and the offered price differ exactly when the open shop lists the item with a positive sell price other than the half value |
| `Necromancy.PrimaryAbility` | Assets/Scripts/Classes/DeathClass.cs:23-82 | no bolt without a caster or a prefab. A controller with a positive cost below it in mana gets no bolt. Otherwise a bolt is spawned and exactly the cost is taken from a checked controller |
| `Necromancy.ManaAfterCast` | Assets/Scripts/Classes/DeathClass.cs:38-47 | the cost comes off the mana exactly when a bolt went out |
| `Necromancy.TwoCasts` | Assets/Scripts/Classes/DeathClass.cs:38-47 | two casts both spawn bolts exactly when the mana covers twice the cost |
| `Player.NewPlayerClass` | Assets/Scripts/Classes/PlayerClass.cs:6-11 | a class asset has 100 health, 50 mana and 10 attack power, and a primary that only logs |
| `Player.NecromancyClass` | Assets/Scripts/Classes/DeathClass.cs:4-12 | the Necromancy asset has the class defaults and a shadow-bolt primary costing 8 mana |
| `Player.SlotNumber` | Assets/Scripts/PlayerController.cs:294-332 | 1, 2 and 3 name the primary, secondary and ultimate slots; any other number names none |
| `Player.Fresh` | Assets/Scripts/PlayerController.cs:14-39 | a new player is level 1 with 0 XP and 100 to go, cooldowns enabled, with ready slots of 2, 3 and 10 seconds |
| `Player.WithCooldown` | Assets/Scripts/PlayerController.cs:109-154 | replaces one slot's cooldown and leaves the other two and all stats alone |
| `Player.InitializeStatsFromClass` | Assets/Scripts/PlayerController.cs:74-88 | with a class, the maxima are copied, health and mana are full, and the damage is the attack power; without one nothing changes |
| `Player.Start` | Assets/Scripts/PlayerController.cs:53-72 | exactly the fresh player (class kept, level 1, no XP, 100 XP to go, cooldowns of 2, 3 and 10 s all ready, cooldowns on, active) with, when there is a class, its maxima copied in, health and mana full and its attack power as the damage; without a class the fresh player unchanged |
| `Player.StartReadyForPlay` | Assets/Scripts/PlayerController.cs:53-72 | a just-started player has well-formed cooldowns, every ability number answers ready with no time left, and a reset changes nothing |
| `Player.InitializeStatsFromClassSettles` | Assets/Scripts/PlayerController.cs:74-88 | copying the class's stats twice is copying them once, and afterwards a player with a class is at full health, so a heal changes nothing |
| `Player.AgeCooldown` | Assets/Scripts/PlayerController.cs:113-151 | a cooling slot loses dt and becomes ready with the timer at zero once it runs out; a ready slot is untouched |
| `Player.AgeCooldownAdditive` | Assets/Scripts/PlayerController.cs:113-151 | ageing by two non-negative steps equals ageing by their sum |
| `Player.UpdateCooldowns` | Assets/Scripts/PlayerController.cs:109-154 | all three slots age when cooldowns are on; nothing changes when they are off |
| `Player.UpdateCooldownsKeepsInvariant` | Assets/Scripts/PlayerController.cs:109-154 | ageing keeps every slot well formed: a ready slot's timer is zero and a cooling slot's timer is positive |
| `Player.CastAbility` | Assets/Scripts/PlayerController.cs:197-283 | only the Necromancy primary touches the player, spending mana as the bolt's gate says |
| `Player.Arm` | Assets/Scripts/PlayerController.cs:226-231 | a started cooldown is cooling with the full configured length left |
| `Player.TryUse` | Assets/Scripts/PlayerController.cs:197-283 | without a class nothing happens; a cooling slot refuses; otherwise the ability runs and, with cooldowns on, the slot is armed |
| `Player.TryUseKeepsInvariant` | Assets/Scripts/PlayerController.cs:197-283 | using an ability keeps the slots well formed when the lengths are positive |
| `Player.SecondUseRefused` | Assets/Scripts/PlayerController.cs:197-224 | with cooldowns on, a second use straight after a successful one is refused and changes nothing |
| `Player.PrimaryCooldownStartsWithoutMana` | Assets/Scripts/PlayerController.cs:197-231 | a Necromancy cast refused for lack of mana still starts the primary cooldown and leaves the mana untouched |
| `Player.IsAbilityReady` | Assets/Scripts/PlayerController.cs:321-332 | ready whenever cooldowns are off or the number names no slot; otherwise ready exactly when the slot is not cooling |
| `Player.GetCooldownPercentage` | Assets/Scripts/PlayerController.cs:294-308 | the timer over the length for a cooling slot (no finite value for a zero length), and zero otherwise |
| `Player.GetRemainingCooldownTime` | Assets/Scripts/PlayerController.cs:310-319 | the slot's raw timer, even with cooldowns off; zero for no slot |
| `Player.CooldownQueriesAgree` | Assets/Scripts/PlayerController.cs:294-332 | on well-formed slots with cooldowns on, a slot is not ready exactly when its remaining time is positive, and then its fraction lies in (0, 1] |
| `Player.ResetAllCooldowns` | Assets/Scripts/PlayerController.cs:334-348 | every slot is ready with a zero timer, and the lengths are kept |
| `Player.ResetAllCooldownsReadyAndIdempotent` | Assets/Scripts/PlayerController.cs:334-348 | after a reset every slot number answers ready, and a second reset changes nothing |
| `Player.SetAbilityCooldowns` | Assets/Scripts/PlayerController.cs:351-356 | only the three lengths change |
| `Player.NewLengthsApplyFromNextCast` | Assets/Scripts/PlayerController.cs:351-356 | new lengths leave a running cooldown alone and apply at the next cast |
| `Player.LevelUp` | Assets/Scripts/PlayerController.cs:386-396 | one pass of the loop. The threshold is spent, the level rises by one, and the maxima grow by 10 and 5 with health and mana full. Damage grows by 2, and the next threshold comes from the curve |
| `Player.CheckLevelUp` | Assets/Scripts/PlayerController.cs:384-418 | ends with the XP below the threshold, and never negative after a level-up. The level and the maxima grow by the same number of passes, and the XP lost is exactly the thresholds those passes spent |
| `Player.GainXP` | Assets/Scripts/PlayerController.cs:375-418 | adds the amount and then levels up as `CheckLevelUp` promises: the XP ends below the threshold and is never negative after a level-up, the thresholds spent are exactly the XP lost, the maxima grow once per level, and without a level-up only the XP changes |
| `Player.GainXPBelowThreshold` | Assets/Scripts/PlayerController.cs:375-397 | below the threshold only the XP changes |
| `Player.XpCurveAtTwo` | Assets/Scripts/PlayerController.cs:399-402 | level 2 needs 283 XP (100 times 2 to the power 1.5, rounded) |
| `Player.XpCurveAtLeastHundred` | Assets/Scripts/PlayerController.cs:399-402 | from level 1 on the rounded curve is at least 100 |
| `Player.XpCurveMeetsLoopRequirement` | Assets/Scripts/PlayerController.cs:384-402 | the real curve meets the loop's requirement of a positive threshold at every level above the current one |
| `Player.SquareAbove` | Assets/Scripts/PlayerController.cs:399-402 | a non-negative number whose square exceeds a bound's square exceeds the bound |
| `Player.SquareMonotone` | Assets/Scripts/PlayerController.cs:399-402 | squaring is monotone on non-negative numbers |
| `Player.FirstLevelUpExample` | Assets/Scripts/PlayerController.cs:375-418 | 250 XP on a fresh player reaches level 2 with 150 XP left and 283 to go |
| `Player.XpCurveValueUnique` | Assets/Scripts/PlayerController.cs:399-402 | the rounding characterisation picks one value per level |
| `Player.Die` | Assets/Scripts/PlayerController.cs:496-501 | the game object is deactivated and nothing else changes |
| `Player.Hit` | Assets/Scripts/PlayerController.cs:429-452 | one copy of the damage body. Ignored at zero health; otherwise health drops by the amount and is clamped at zero, and death follows at zero |
| `Player.TakeDamage` | Assets/Scripts/PlayerController.cs:429-475 | the amount lands twice, and the death routine runs at most once |
| `Player.TakeDamageIsDoubleHit` | Assets/Scripts/PlayerController.cs:429-475 | taking an amount is exactly one hit of twice the amount |
| `Player.Heal` | Assets/Scripts/PlayerController.cs:477-483 | health grows by the amount, capped at the maximum, with no check for death |
| `Player.HealAdditive` | Assets/Scripts/PlayerController.cs:477-483 | two heals of non-negative amounts are one heal of their sum |
| `Player.HealDoesNotRevive` | Assets/Scripts/PlayerController.cs:477-501 | healing a dead player leaves the game object inactive |
| `Player.HandleAbilityInput` | Assets/Scripts/PlayerController.cs:164-179 | a lone pressed ability key gives what trying its own slot gives; with no ability key pressed nothing changes |
| `Player.Frame` | Assets/Scripts/PlayerController.cs:90-107 | an inactive player gets no frame; without T, input handling and cooldown ageing run twice with the same presses and nothing else happens |
| `Player.FrameWithoutKeysAgesTwice` | Assets/Scripts/PlayerController.cs:90-154 | a frame with no key pressed ages every cooldown by twice the frame time, and changes nothing else |
| `Player.FrameCastsOnceWithCooldowns` | Assets/Scripts/PlayerController.cs:90-107 | with cooldowns on, a press on a ready Necromancy primary casts once per frame |
| `Player.FrameCastsTwiceWithoutCooldowns` | Assets/Scripts/PlayerController.cs:90-107 | with cooldowns off the same press casts twice in one frame |
| `Player.TestKeyDealsTwoHundred` | Assets/Scripts/PlayerController.cs:101-104 | the T key costs a living player 200 health, clamped at zero |
| `EnemyAI.DetermineState` | Assets/Scripts/EnemyScripts/SimpleEnemyAI.cs:78-133 | idle starts chasing (and aggroes) when pursuit should start. A chaser heads home when it should stop, clearing aggro. A returning enemy chases again or goes idle within a unit of home. A stunned enemy stays stunned. Velocity is zeroed exactly when the state changes |
| `EnemyAI.AggroedChaserLeavesOnlyByLeash` | Assets/Scripts/EnemyScripts/SimpleEnemyAI.cs:146-153 | an aggroed chaser gives up only beyond the leash, and then heads home |
| `EnemyAI.ChaseHysteresis` | Assets/Scripts/EnemyScripts/SimpleEnemyAI.cs:135-153 | a calm chaser whose player is out of chase range but within the buffer keeps chasing, though an idle enemy at that distance would not start |
| `EnemyAI.ChasingImpliesAggroed` | Assets/Scripts/EnemyScripts/SimpleEnemyAI.cs:78-133 | a transition into chasing always sets aggro |
| `EnemyAI.Update` | Assets/Scripts/EnemyScripts/SimpleEnemyAI.cs:50-70 | nothing without a player; a transition check only once the debounce delay has passed since the last check |
| `EnemyAI.DebounceBlocksSecondCheck` | Assets/Scripts/EnemyScripts/SimpleEnemyAI.cs:58-66 | after a check at t1, an update before t1 plus the delay changes nothing |
| `EnemyAI.UpdateNeverLeavesStunned` | Assets/Scripts/EnemyScripts/SimpleEnemyAI.cs:124-130 | a stunned enemy stays stunned under updates |
| `EnemyAI.StartChasing` | Assets/Scripts/EnemyScripts/SimpleEnemyAI.cs:253-258 | from any state the enemy aggroes and chases at once; pending stuns are kept |
| `EnemyAI.StartChasingHoldsWithinLeash` | Assets/Scripts/EnemyScripts/SimpleEnemyAI.cs:93-106 | after a hit the enemy keeps chasing while within its leash and turns home, calm, past it; a second hit changes nothing more |
| `EnemyAI.HitReleasesStuckStun` | Assets/Scripts/EnemyScripts/Enemy.cs:67-71 | a hit puts a stunned enemy with no stun pending back in pursuit, after which an update can move it again |
| `EnemyAI.Stun` | Assets/Scripts/EnemyScripts/SimpleEnemyAI.cs:261-276 | records the state at the start, stuns and zeroes the velocity; the saved state comes back when the duration is over |
| `EnemyAI.StillRunning` | Assets/Scripts/EnemyScripts/SimpleEnemyAI.cs:266-276 | the stuns still pending are never more than those started |
| `EnemyAI.StillRunningMembers` | Assets/Scripts/EnemyScripts/SimpleEnemyAI.cs:266-276 | a stun stays pending exactly while it is not yet due |
| `EnemyAI.StillRunningConcat` | Assets/Scripts/EnemyScripts/SimpleEnemyAI.cs:266-276 | the stuns still running keep their start order |
| `EnemyAI.StillRunningCounts` | Assets/Scripts/EnemyScripts/SimpleEnemyAI.cs:266-276 | every stun not yet due stays pending as often as it was started, and no due one does |
| `EnemyAI.LastDue` | Assets/Scripts/EnemyScripts/SimpleEnemyAI.cs:266-276 | the index of the last stun that is due, or none when none is |
| `EnemyAI.RestoredState` | Assets/Scripts/EnemyScripts/SimpleEnemyAI.cs:266-276 | within one frame, the state equals running the stun coroutines due by then one by one in start order, each writing its saved state back; unchanged when none is due |
| `EnemyAI.ResumeInOrderSnoc` | Assets/Scripts/EnemyScripts/SimpleEnemyAI.cs:266-276 | a coroutine started last decides the state when it is due, and is ignored otherwise |
| `EnemyAI.ResumeInOrderLastDue` | Assets/Scripts/EnemyScripts/SimpleEnemyAI.cs:266-276 | running the coroutines in start order leaves the saved state of the last due one, or the state unchanged when none is due |
| `EnemyAI.ResumeDueStuns` | Assets/Scripts/EnemyScripts/SimpleEnemyAI.cs:266-276 | one frame of coroutine resumptions: the state is what the coroutines due by then leave when run in start order, the pending list is the stuns still running, and nothing else changes |
| `EnemyAI.SingleStunRestores` | Assets/Scripts/EnemyScripts/SimpleEnemyAI.cs:261-276 | a lone stun restores exactly the state it interrupted |
| `EnemyAI.FirstOverlappingStunEnds` | Assets/Scripts/EnemyScripts/SimpleEnemyAI.cs:261-276 | when the first of two overlapping stuns ends it restores the interrupted state, and only the second stun, which saved "stunned", stays pending |
| `EnemyAI.OverlappingStunsCanStick` | Assets/Scripts/EnemyScripts/SimpleEnemyAI.cs:261-276 | a second stun started during the first saves "stunned", so once both are over the enemy is still stunned, and stays so until it is hit again |
| `EnemyAI.NestedStunResumesFrameByFrame` | Assets/Scripts/EnemyScripts/SimpleEnemyAI.cs:261-276 | a short stun inside a long one, resumed frame by frame, restores "stunned" at its due time and the long one later restores the interrupted state (due order); one call at the later time would end stunned |
| `EnemyHealth.SetEnabled` | Assets/Scripts/EnemyScripts/Enemy.cs:205-245 | a present component takes the flag; an absent one stays absent |
| `EnemyHealth.Start` | Assets/Scripts/EnemyScripts/Enemy.cs:36-55 | full health, and the current pose remembered as the spawn point |
| `EnemyHealth.DisableEnemy` | Assets/Scripts/EnemyScripts/Enemy.cs:205-217 | every present component is switched off and nothing else changes |
| `EnemyHealth.Die` | Assets/Scripts/EnemyScripts/Enemy.cs:97-122 | ignored once dead. Otherwise the enemy is marked dead and the XP reward goes to a present player. The enemy is disabled and scheduled to respawn, or is destroyed |
| `EnemyHealth.TakeDamage` | Assets/Scripts/EnemyScripts/Enemy.cs:57-78 | ignored once dead. Otherwise health drops by the damage without clamping and the AI starts chasing. At zero or below the enemy dies: components off, the XP reward to a present player, and a respawn or destruction by the configuration. Above zero nothing else changes |
| `EnemyHealth.XpGrantedAtMostOncePerLife` | Assets/Scripts/EnemyScripts/Enemy.cs:57-122 | however many hits land in one life, the XP is granted at most once, and only to a present player |
| `EnemyHealth.RespawnDelay` | Assets/Scripts/EnemyScripts/Enemy.cs:247-268 | the respawn time, plus 5 seconds once when the player is strictly within 5 units of the spawn |
| `EnemyHealth.EnableEnemy` | Assets/Scripts/EnemyScripts/Enemy.cs:219-245 | full health, alive, back at the spawn pose, every present component on, and the AI passed through its reset |
| `EnemyHealth.DeathThenRespawn` | Assets/Scripts/EnemyScripts/Enemy.cs:97-245 | death then respawn gives an enemy that is alive at full health at the spawn point, with the same components present and enabled |
| `EnemyHealth.NewLifeGrantsAgain` | Assets/Scripts/EnemyScripts/Enemy.cs:97-245 | after a respawn, a lethal hit grants the XP reward again |
| `EnemyShooter.Start` | Assets/Scripts/EnemyShooter.cs:18-30 | a full interval before the first shot |
| `EnemyShooter.Update` | Assets/Scripts/EnemyShooter.cs:32-50 | outside an engagement the timer is frozen. Otherwise it drops by dt, and when it reaches zero one shot is fired and the timer restarts at the interval |
| `EnemyShooter.UpdateKeepsTimerInRange` | Assets/Scripts/EnemyShooter.cs:32-50 | with a positive interval and non-negative frame times the timer stays in (0, interval] |
| `EnemyShooter.NoShotBeforeTimerRunsOut` | Assets/Scripts/EnemyShooter.cs:32-50 | engaged frames whose total stays below the timer fire nothing and only count it down |
| `EnemyShooter.FirstShot` | Assets/Scripts/EnemyShooter.cs:32-50 | the frame on which the timer runs out fires exactly one shot and restarts the full interval, with no carry-over |
| `InventoryHUD.NonEmptySlots` | Assets/Scripts/Inventory/InventoryHUD.cs:203-217 | the occupied slots in inventory order, one per used slot |
| `InventoryHUD.NonEmptySlotsMembers` | Assets/Scripts/Inventory/InventoryHUD.cs:203-217 | a slot is listed exactly when it is an occupied slot of the inventory |
| `InventoryHUD.UpdateHUD` | Assets/Scripts/Inventory/InventoryHUD.cs:190-257 | the scan returns the first `visibleSlots` occupied slots in inventory order, and counts every occupied slot |
| `InventoryHUD.VisibleItems` | Assets/Scripts/Inventory/InventoryHUD.cs:203-217 | the window is a prefix of the occupied slots, of at most `visibleSlots` entries |
| `InventoryHUD.SlotViews` | Assets/Scripts/Inventory/InventoryHUD.cs:223-244 | strip slot `i` shows visible item `i` when there is one and is blank otherwise |
| `InventoryHUD.StripShowsFirstOccupied` | Assets/Scripts/Inventory/InventoryHUD.cs:190-244 | strip slot `i` shows the `i`-th occupied inventory slot exactly when `i` is within the strip, the window and the occupied count |
| `InventoryHUD.CapacityText` | Assets/Scripts/Inventory/InventoryHUD.cs:259-294 | "Items: " followed by a ratio that parses back to the used and total slot counts; "0/0" without an inventory |
| `InventoryHUD.GoldText` | Assets/Scripts/Inventory/InventoryHUD.cs:259-294 | "Gold: " followed by a number that parses back to the gold; 0 without a purse |
| `InventoryHUD.ShowNotification` | Assets/Scripts/Inventory/InventoryHUD.cs:317-325 | with the widgets assigned, the message is shown for the duration; otherwise nothing changes |
| `InventoryHUD.TickNotice` | Assets/Scripts/Inventory/InventoryHUD.cs:134-141 | while time is left it drops by dt, and the panel hides when it reaches zero |
| `InventoryHUD.NoticeShownWhileTimeLeft` | Assets/Scripts/Inventory/InventoryHUD.cs:134-141 | a notification shown for a positive duration stays up exactly while the frame times add up to less than the duration |
| `InventoryHUD.NonPositiveDurationNeverHides` | Assets/Scripts/Inventory/InventoryHUD.cs:134-141 | a notification shown for zero or less never hides |
| `InventoryHUD.Refresh` | Assets/Scripts/Inventory/InventoryHUD.cs:190-257 | the change event brings the strip back in step with the inventory |
| `InventoryHUD.UseItemFromVisibleSlot` | Assets/Scripts/Inventory/InventoryHUD.cs:296-315 | for a visible item that some slot holds, the first such slot is used and "Used <name>" is shown; a usable item then has one unit fewer and the strip is back in step, any other leaves inventory and strip alone; otherwise nothing changes |
| `InventoryHUD.QuickUse` | Assets/Scripts/Inventory/InventoryHUD.cs:117-131 | with no quick-use key pressed from the given index on, nothing changes |
| `InventoryHUD.QuickUseUsesFirstHoldingSlot` | Assets/Scripts/Inventory/InventoryHUD.cs:296-315 | on a strip in step with the inventory, a key uses the lowest-index slot holding the item it shows |
| `InventoryHUD.Frame` | Assets/Scripts/Inventory/InventoryHUD.cs:114-142 | the toggle flips the strip and the notification counts down; with no quick-use key pressed nothing else changes |
| `InventoryHUD.AddItemWithNotification` | Assets/Scripts/Inventory/InventoryHUD.cs:327-341 | the item is added; on success "Added <n>x <name>" is shown and the strip is back in step; on failure "Inventory full!" is shown for 1.5 seconds and the strip is unchanged |
| `InventoryUI.Grid` | Assets/Scripts/Inventory/InventoryUI.cs:126-146 | columns times rows cells; cell `i` mirrors inventory slot `i` exactly when the inventory has one, and is cleared otherwise |
| `InventoryUI.GridMirrorsPrefix` | Assets/Scripts/Inventory/InventoryUI.cs:126-146 | the mirrored cells read back as the inventory's first slots, all of them when the grid is large enough |
| `InventoryUI.CapacityText` | Assets/Scripts/Inventory/InventoryUI.cs:147-151 | a ratio with no prefix that parses back to the used and total slot counts |
| `InventoryUI.GoldText` | Assets/Scripts/Inventory/InventoryUI.cs:155-161 | a number that parses back to the gold, followed by " Gold" |
| `InventoryUI.ShowItemInfo` | Assets/Scripts/Inventory/InventoryUI.cs:176-204 | the panel shows the item's name and tooltip; the use button is visible exactly for usable items and the drop button exactly for sellable ones |
| `InventoryUI.OnSlotClicked` | Assets/Scripts/Inventory/InventoryUI.cs:163-174 | an out-of-range or empty slot is ignored; an occupied one becomes the selection and opens the panel |
| `InventoryUI.HideItemInfo` | Assets/Scripts/Inventory/InventoryUI.cs:206-211 | the panel is closed and the selection forgotten (index -1) |
| `InventoryUI.UseSelectedItem` | Assets/Scripts/Inventory/InventoryUI.cs:213-220 | with a selection, its slot is used and the panel hidden; without one nothing happens |
| `InventoryUI.DropSelectedItem` | Assets/Scripts/Inventory/InventoryUI.cs:222-236 | with a selection, one unit leaves its slot and the panel is hidden; without one nothing happens |
| `InventoryUI.ClickThenDrop` | Assets/Scripts/Inventory/InventoryUI.cs:163-236 | clicking an occupied slot and dropping removes exactly one unit of its item, no other item's count changes, and nothing stays selected |
| `InventoryUI.ToggleInventory` | Assets/Scripts/Inventory/InventoryUI.cs:238-262 | flips the window; closing it also hides the panel and forgets the selection |
| `InventoryUI.Frame` | Assets/Scripts/Inventory/InventoryUI.cs:67-87 | with no key nothing changes; I on an open window closes it and clears the selection, and on a closed one opens it; Escape on an open window closes the info panel when it is open and otherwise closes the window, and does nothing to a closed one; I and Escape together on a closed window open it with the info panel hidden and the selection cleared when the panel was open, and leave it closed and cleared otherwise |
| `InventoryUI.EscapeTwiceClosesAll` | Assets/Scripts/Inventory/InventoryUI.cs:76-86 | two Escape presses close first the panel and then the window |
| `InventoryUI.SelectionStaysOk` | Assets/Scripts/Inventory/InventoryUI.cs:163-262 | every operation keeps the selection well formed: an item is selected exactly when the index is not -1 |

## Left out

- Rendering, sprites, colours, particle effects, canvases, and the coroutines that only
  animate (damage flash, cooldown flash, tile pulse). None of them changes game state.
- Physics and steering: enemy movement, projectile flight, collisions and `FixedUpdate`.
  The distances the AI and the shooter read are parameters.
- Single-precision rounding of float quantities: cooldown timers, enemy health, time and
  distances are exact reals.
- 32-bit integer overflow of gold, XP and stock. Integers are unbounded.
- Randomness: the favourite roll of a sell tile is a parameter. The enemy's random
  mana-potion drop, and the potion pickup it spawns, are not modelled.
- `InventoryManager.AddItem(string, int)`, which loads assets by path, is not modelled.
  The result of the potion lookup in `InitializeInventory` is a parameter.
- The inventory and shop managers are singletons looked up at run time. The model
  assumes the instance exists and passes its state explicitly.
- Hooks into code outside this model are function parameters or absent:
  - the AI's `ResetAI`;
  - `RestoreMana`;
  - the health-changed events;
  - the spawned bolt's own behaviour.
- `Player.CheckLevelUp`: the level curve is a parameter `curve` (with a positive value
  at every level above the current one). `Mathf.Pow` is not computed. The real curve is
  characterised by `Player.IsXpCurveValue`, which the loop requirement is proved for.
- Time scale and cursor handling in the inventory and shop windows.
- `ShopManager.BuyItem`, `ShopManager.SellItem`, `ShopUI.BuyItem`, `ShopUI.SellItem`: hiding the
  item information panel after a completed purchase or sale (ShopManager.cs:281-284, 305-308)
  is not modelled. A trade carries no panel state; the other list refreshes are display-only too.
- `InventoryHUD.ShowNotification`: the panel and its text widget are assumed to be
  assigned together. A single flag stands for both.
- `EnemyAI.ResumeDueStuns`: models one frame and must be applied every frame. A stun
  coroutine resumes at the first frame at or after its due time, so start order decides only
  among stuns due in the same frame; one call spanning several due times resolves them in start
  order, where the game resumes them in due order (`NestedStunResumesFrameByFrame`). The
  one-frame delay of `WaitForSeconds` is not modelled.
- An inactive game object receives no `Update`. The model simply does not step a dead
  player or a disabled enemy.
- Shop tabs (`SetTab`), the shop keeper's interaction trigger and the shop item tiles
  are not part of this model, beyond the `isBuying` flag they set.
- `InventoryUI.Grid`: the cell count is `columns * rows`. A negative count, which the
  engine cannot allocate, is excluded by the precondition.
- `Player.HandleAbilityInput`: the contract covers one pressed key at a time. When
  several keys are held in one frame, the body tries them in slot order, each on the
  result of the one before; no separate property is stated for that case.
- `InventoryHUD.QuickUse`: the contract states only the no-key case. A pressed key is
  described through `InventoryHUD.UseItemFromVisibleSlot` and
  `InventoryHUD.QuickUseUsesFirstHoldingSlot`.
- `Inventory.InitializeInventory`: the contract gives the count and the number of used
  slots, not which slot holds the potions (the first, by the placement rule of `AddItem`).
