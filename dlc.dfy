/**
 * XAssets/dlc.py: downloadable content from loot/dlc_ids.csv, one record per row, with the COD
 * Points amount written into the name and up to 83 item columns.
 */
module Dlc {
  import opened Wrappers
  import opened Text
  import opened Resolvers
  import opened Slots

  /** The columns the compiler reads; `items` are the `item1`..`item83` cells. */
  datatype DlcRow = DlcRow(
    id: Option<int>, name: Option<string>, dlcType: Option<string>, cpAmount: Option<int>,
    ps4Id: Option<string>, xb1Id: Option<string>, battleNetId: Option<int>, title: Option<string>,
    image: Option<string>, isCodPoints: Option<int>, items: seq<Option<int>>)

  datatype StoreIds = StoreIds(battlenet: Option<int>, playstation: Option<string>, xbox: Option<string>)

  /** A record; `rarity` is None while the record has no `rarity` key and Some(text) once it has one. */
  datatype DlcItem = DlcItem(
    id: Option<int>, altId: Option<string>, name: Option<string>, lootType: Option<string>,
    altType: Option<string>, image: Option<string>, storeIds: StoreIds, rarity: Option<Option<string>>,
    items: seq<LootReward>)

  /** The number of item columns the compiler reads. */
  const ItemColumns: nat := 83
  const ConsumableType: string := "consumable"
  const ConsumableKey: string := "LOOT_MP/CONSUMABLE"

  /** `CPAmount`, 0 when the cell is empty. */
  function CodPointsAmount(row: DlcRow): int {
    row.cpAmount.GetOr(0)
  }

  /** A COD Points row calls `.replace` on its title text, so that text must exist. */
  predicate DlcRowReadable(ctx: Context, row: DlcRow) {
    Truthy(row.isCodPoints) ==> Localized(ctx.localize, row.title).Some?
  }

  /** The title text; for COD Points its `&&1` becomes the comma-grouped amount. */
  function DlcName(ctx: Context, row: DlcRow): Option<string>
    requires DlcRowReadable(ctx, row)
  {
    var title := Localized(ctx.localize, row.title);
    if !Truthy(row.isCodPoints) then title
    else Some(Replace(title.value, Template, Grouped(CodPointsAmount(row))))
  }

  function DlcRecord(ctx: Context, row: DlcRow): DlcItem
    requires DlcRowReadable(ctx, row)
  {
    var resolved := GetLootType(ctx, row.id);
    var consumable := row.dlcType == Some(ConsumableType);
    DlcItem(
      row.id, row.name, DlcName(ctx, row),
      if consumable && resolved.None? then Lookup(ctx.localize, ConsumableKey) else resolved,
      row.dlcType, row.image, StoreIds(row.battleNetId, row.ps4Id, row.xb1Id),
      if consumable then Some(GetLootRarity(ctx, Some(0))) else None,
      ItemsOf(ctx, row.items, ItemColumns))
  }

  /**
   * A consumable gets the rarity of quality 0 and, when its id resolves to no type, the
   * consumable text as its type; any other row keeps its resolved type and has no rarity.
   */
  lemma ConsumableDefaults(ctx: Context, row: DlcRow)
    requires DlcRowReadable(ctx, row)
    ensures var d := DlcRecord(ctx, row);
      && (row.dlcType == Some(ConsumableType) ==>
            && d.rarity == Some(Lookup(ctx.localize, "LOOT_MP/QUALITY_0"))
            && d.lootType == (if GetLootType(ctx, row.id).Some? then GetLootType(ctx, row.id) else Lookup(ctx.localize, ConsumableKey)))
      && (row.dlcType != Some(ConsumableType) ==> d.rarity.None? && d.lootType == GetLootType(ctx, row.id))
  {
    assert NatToString(0) == "0";
    assert RarityKey(Some(0)) == "LOOT_MP/QUALITY_0";
  }

  /**
   * A COD Points title with one `&&1` names the amount: the template becomes the grouped amount,
   * and deleting its commas gives back the decimal amount (0 for an empty cell).
   */
  lemma CodPointsName(ctx: Context, row: DlcRow, before: string, after: string)
    requires Truthy(row.isCodPoints)
    requires Localized(ctx.localize, row.title) == Some(before + Template + after)
    requires '&' !in before && !Occurs(after, Template)
    ensures DlcName(ctx, row) == Some(before + Grouped(CodPointsAmount(row)) + after)
    ensures RemoveCommas(Grouped(CodPointsAmount(row))) == IntToString(CodPointsAmount(row))
  {
    ReplaceOnce(before, Template, after, Grouped(CodPointsAmount(row)));
    UngroupInt(CodPointsAmount(row));
  }

  /** Any other row is named by its title text as it is. */
  lemma PlainName(ctx: Context, row: DlcRow)
    requires !Truthy(row.isCodPoints)
    ensures DlcName(ctx, row) == Localized(ctx.localize, row.title)
  {
  }

  /** The body of the loop for one row. */
  method DlcEntry(ctx: Context, entry: DlcRow) returns (d: DlcItem)
    requires DlcRowReadable(ctx, entry)
    ensures d == DlcRecord(ctx, entry)
  {
    hide Replace, Grouped, GetLootType, GetLootRarity;
    var isCP := Truthy(entry.isCodPoints);
    var amountCP := if entry.cpAmount.None? then 0 else entry.cpAmount.value;
    var name := Localized(ctx.localize, entry.title);
    if isCP {
      name := Some(Replace(name.value, Template, Grouped(amountCP)));
    }
    d := DlcItem(
      entry.id, entry.name, name, GetLootType(ctx, entry.id), entry.dlcType, entry.image,
      StoreIds(entry.battleNetId, entry.ps4Id, entry.xb1Id), None, []);
    if d.altType == Some(ConsumableType) {
      if d.lootType.None? {
        d := d.(lootType := Lookup(ctx.localize, ConsumableKey));
      }
      if d.rarity.None? {
        d := d.(rarity := Some(GetLootRarity(ctx, Some(0))));
      }
    }
    assert d == DlcRecord(ctx, entry).(items := []);
    for i := 1 to ItemColumns + 1
      invariant d == DlcRecord(ctx, entry).(items := ItemsOf(ctx, entry.items, i - 1))
    {
      var item := Slot(entry.items, i);
      if item.None? {
        continue;
      }
      d := d.(items := d.items + [RewardOf(ctx, item)]);
    }
  }

  /** DLC.IDs: one record per row, appended in row order; a missing table leaves the list as it was. */
  method DlcIDs(ctx: Context, ids: Option<seq<DlcRow>>, dlc: seq<DlcItem>) returns (out: seq<DlcItem>)
    requires ids.Some? ==> forall row <- ids.value :: DlcRowReadable(ctx, row)
    ensures ids.None? ==> out == dlc
    ensures ids.Some? ==> Extends(dlc, out, |ids.value|)
    ensures ids.Some? ==> forall k :: 0 <= k < |ids.value| ==> out[|dlc| + k] == DlcRecord(ctx, ids.value[k])
  {
    hide DlcRecord;
    out := dlc;
    if ids.None? {
      return;
    }
    var rows := ids.value;
    for i := 0 to |rows|
      invariant Extends(dlc, out, i)
      invariant forall k :: 0 <= k < i ==> out[|dlc| + k] == DlcRecord(ctx, rows[k])
    {
      var d := DlcEntry(ctx, rows[i]);
      out := out + [d];
    }
  }
}
