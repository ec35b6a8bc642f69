/** The player's purse (`PlayerCurrency`): gold, spent only when there is enough, and gems. */
module Currency {

  datatype Wallet = Wallet(gold: int, gems: int)

  /** The purse the game starts with. */
  const Initial: Wallet := Wallet(100, 0)

  /** Gold `AddTestGold` adds when called without an argument. */
  const TestGoldAmount: int := 100

  predicate HasEnoughGold(w: Wallet, amount: int) {
    w.gold >= amount
  }

  datatype SpendResult = SpendResult(ok: bool, wallet: Wallet)

  /** `SpendGold`: succeeds exactly when the gold covers the amount, taking exactly that much;
      a refused spend changes nothing. */
  function SpendGold(w: Wallet, amount: int): (r: SpendResult)
    ensures r.ok <==> HasEnoughGold(w, amount)
    ensures r.ok ==> r.wallet == Wallet(w.gold - amount, w.gems)
    ensures r.ok ==> r.wallet.gold >= 0
    ensures !r.ok ==> r.wallet == w
  {
    if w.gold >= amount then SpendResult(true, w.(gold := w.gold - amount))
    else SpendResult(false, w)
  }

  function AddGold(w: Wallet, amount: int): (r: Wallet)
    ensures r.gold - w.gold == amount && r.gems == w.gems
  {
    w.(gold := w.gold + amount)
  }

  function AddGems(w: Wallet, amount: int): (r: Wallet)
    ensures r.gems - w.gems == amount && r.gold == w.gold
  {
    w.(gems := w.gems + amount)
  }

  /** Gems are a separate purse: adding them never changes whether a purchase in gold is
      affordable, nor what the purchase leaves in gold; adding an amount and then its
      negation restores the wallet. */
  lemma AddGemsLeavesGoldAlone(w: Wallet, gems: int, price: int)
    ensures HasEnoughGold(AddGems(w, gems), price) == HasEnoughGold(w, price)
    ensures SpendGold(AddGems(w, gems), price).wallet.gold == SpendGold(w, price).wallet.gold
    ensures AddGems(AddGems(w, gems), -gems) == w
  {
  }

  function AddTestGold(w: Wallet, amount: int := TestGoldAmount): (r: Wallet)
    ensures r == AddGold(w, amount)
  {
    AddGold(w, amount)
  }

  /** Adding gold and then spending the same amount returns the purse it started from,
      provided the purse did not start in debt. */
  lemma AddThenSpendRestores(w: Wallet, amount: int)
    requires w.gold >= 0
    ensures SpendGold(AddGold(w, amount), amount) == SpendResult(true, w)
  {
  }

  /** A purse that never held negative gold never does after a sequence of spends. */
  lemma SpendKeepsGoldNonNegative(w: Wallet, amounts: seq<int>)
    requires w.gold >= 0
    ensures SpendAll(w, amounts).gold >= 0
    decreases |amounts|
  {
    if |amounts| > 0 {
      SpendKeepsGoldNonNegative(SpendGold(w, amounts[0]).wallet, amounts[1..]);
    }
  }

  /** Attempts a spend of each amount in turn. */
  function SpendAll(w: Wallet, amounts: seq<int>): Wallet
    decreases |amounts|
  {
    if |amounts| == 0 then w else SpendAll(SpendGold(w, amounts[0]).wallet, amounts[1..])
  }
}
