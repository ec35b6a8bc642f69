/** Item assets (`Item`, and its `Consumable` subclass) and their tooltips. */
module Items {
  import opened Options
  import Text

  /** What an asset is beyond the common fields: a plain item, or a consumable with
      the health and mana it advertises. */
  datatype ItemKind = Plain | Consumable(healthRestore: int, manaRestore: int)

  /** An item asset. The engine compares item assets by reference; `id` stands for
      that identity, so two assets with equal fields but different ids are different. */
  datatype Item = Item(
    id: nat,
    itemName: string,
    description: string,
    baseValue: int,
    isStackable: bool,
    maxStack: int,
    isUsable: bool,
    isSellable: bool,
    canBeSoldInShop: bool,
    kind: ItemKind)

  /** A newly created item asset, with the field initialisers of the class. */
  function NewItem(id: nat): (it: Item)
    ensures it.id == id && it.kind.Plain?
    ensures it.itemName == "New Item" && it.description == "Item description"
    ensures it.baseValue == 10 && it.isStackable && it.maxStack == 99
    ensures !it.isUsable && it.isSellable && it.canBeSoldInShop
  {
    Item(id, "New Item", "Item description", 10, true, 99, false, true, true, Plain)
  }

  /** A newly created consumable asset: the item defaults plus 20 HP and 10 MP. */
  function NewConsumable(id: nat): (it: Item)
    ensures it == NewItem(id).(kind := Consumable(20, 10))
  {
    NewItem(id).(kind := Consumable(20, 10))
  }

  const LinePrefix: string := "\nRestores "

  /** The text the tooltip shows for an item: the description, and for a consumable one
      line per positive restore amount, health first. */
  function GetTooltip(it: Item): (t: string)
    ensures |it.description| <= |t| && t[..|it.description|] == it.description
    ensures it.kind.Plain? ==> t == it.description
    ensures it.kind.Consumable? && it.kind.healthRestore <= 0 && it.kind.manaRestore <= 0 ==>
              t == it.description
  {
    match it.kind
    case Plain => it.description
    case Consumable(h, m) => it.description + RestoreLines(h, m)
  }

  datatype Unit = HP | MP

  function UnitText(u: Unit): string {
    match u
    case HP => " HP"
    case MP => " MP"
  }

  /** One restore line as the consumable tooltip prints it. */
  function RestoreLine(n: nat, u: Unit): string {
    LinePrefix + Text.NatToString(n) + UnitText(u)
  }

  datatype Line = Line(amount: nat, unit: Unit, rest: string)

  /** Reads one restore line off the front of `s`. */
  function ParseLine(s: string): Option<Line> {
    var p := |LinePrefix|;
    if |s| < p || s[..p] != LinePrefix then None else ParseAmount(s[p..])
  }

  /** Reads the amount and unit of a restore line, after its prefix. Only a printed amount
      is accepted: a run of digits with no leading zero, so never zero itself, since the
      tooltip prints a line only for a positive amount. */
  function ParseAmount(t: string): Option<Line> {
    var k := Text.DigitRun(t);
    if k == 0 || t[0] == '0' || |t| < k + 3 then None
    else if t[k..k + 3] == " HP" then Some(Line(Text.ParseDigits(t[..k]), HP, t[k + 3..]))
    else if t[k..k + 3] == " MP" then Some(Line(Text.ParseDigits(t[..k]), MP, t[k + 3..]))
    else None
  }

  /** Restore amounts read from tooltip lines; an absent line reads as zero. */
  datatype Restores = Restores(health: nat, mana: nat)

  /** Reads the lines after the description: none, one, or an HP line followed by an MP line. */
  function ParseRestoreLines(s: string): Option<Restores> {
    if s == "" then Some(Restores(0, 0))
    else
      match ParseLine(s)
      case None => None
      case Some(first) =>
        if first.rest == "" then
          Some(if first.unit == HP then Restores(first.amount, 0) else Restores(0, first.amount))
        else if first.unit == MP then None
        else
          match ParseLine(first.rest)
          case Some(second) =>
            if second.unit == MP && second.rest == "" then Some(Restores(first.amount, second.amount))
            else None
          case None => None
  }

  lemma ParseAmountOf(n: nat, u: Unit, rest: string)
    requires n >= 1
    ensures ParseAmount(Text.NatToString(n) + (UnitText(u) + rest)) == Some(Line(n, u, rest))
  {
    var digits := Text.NatToString(n);
    var after := UnitText(u) + rest;
    var t := digits + after;
    assert after[0] == ' ';
    Text.DigitRunOfDigitsThen(digits, after);
    Text.SplitAt(digits, after);
    Text.SplitAt(UnitText(u), rest);
    assert t[|digits|..|digits| + 3] == UnitText(u);
    assert t[|digits| + 3..] == rest;
    Text.NatToStringRoundTrip(n);
  }

  lemma ParseRestoreLine(n: nat, u: Unit, rest: string)
    requires n >= 1
    ensures ParseLine(RestoreLine(n, u) + rest) == Some(Line(n, u, rest))
  {
    var t := Text.NatToString(n) + (UnitText(u) + rest);
    assert RestoreLine(n, u) + rest == LinePrefix + t;
    Text.SplitAt(LinePrefix, t);
    ParseAmountOf(n, u, rest);
  }

  /** A restore line for zero, which the tooltip never prints, does not read as a line. */
  lemma ZeroLineRejected(u: Unit, rest: string)
    ensures ParseLine(RestoreLine(0, u) + rest) == None
  {
    var t := Text.NatToString(0) + (UnitText(u) + rest);
    assert RestoreLine(0, u) + rest == LinePrefix + t;
    Text.SplitAt(LinePrefix, t);
    assert t[0] == '0';
  }

  function Positive(x: int): nat {
    if x > 0 then x else 0
  }

  /** The lines a consumable with these restore amounts adds to its description. */
  function RestoreLines(h: int, m: int): string {
    (if h > 0 then RestoreLine(h, HP) else "") + (if m > 0 then RestoreLine(m, MP) else "")
  }

  lemma ParseRestoreLinesOf(h: int, m: int)
    ensures ParseRestoreLines(RestoreLines(h, m)) == Some(Restores(Positive(h), Positive(m)))
  {
    var ml := if m > 0 then RestoreLine(m, MP) else "";
    if m > 0 {
      ParseRestoreLine(m, MP, "");
      assert ml + "" == ml;
      assert ml != "";
    }
    if h > 0 {
      ParseRestoreLine(h, HP, ml);
      assert RestoreLines(h, m) == RestoreLine(h, HP) + ml;
    } else {
      assert RestoreLines(h, m) == ml;
    }
  }

  /** The lines a tooltip adds after the description carry exactly the positive restore
      amounts of a consumable, health before mana, and nothing for a plain item. */
  lemma TooltipRestoresRoundTrip(it: Item)
    ensures var t := GetTooltip(it);
      ParseRestoreLines(t[|it.description|..]) ==
        Some(if it.kind.Consumable? then Restores(Positive(it.kind.healthRestore), Positive(it.kind.manaRestore))
             else Restores(0, 0))
  {
    var t := GetTooltip(it);
    var d := it.description;
    if it.kind.Consumable? {
      var lines := RestoreLines(it.kind.healthRestore, it.kind.manaRestore);
      assert t[|d|..] == lines;
      ParseRestoreLinesOf(it.kind.healthRestore, it.kind.manaRestore);
    } else {
      assert t[|d|..] == "";
    }
  }
}
