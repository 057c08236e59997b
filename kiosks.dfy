/**
 * XAssets/kiosks.py: Battle Royale kiosk purchases from mp/brkioskpurchases.csv and its Truck War
 * variant mp/brkioskpurchases_truckwar.csv. Both are read with the same columns and compiled the
 * same way, so one operation models KioskBR.IDs and KioskBRTruck.IDs.
 */
module Kiosks {
  import opened Wrappers
  import opened Resolvers

  datatype KioskRow = KioskRow(
    kioskType: Option<string>, ref: Option<string>, cost: Option<int>, title: Option<string>,
    desc: Option<string>, icon: Option<string>, slotLabel: Option<string>)

  datatype KioskItem = KioskItem(
    altId: Option<string>, name: Option<string>, description: Option<string>, slotLabel: Option<string>,
    kioskType: Option<string>, price: int, image: Option<string>)

  /** The kiosk lists costs in hundreds of cash. */
  const CostUnit: int := 100

  /** The record of a row; `cost * 100` raises on an empty cell. */
  function KioskRecord(ctx: Context, row: KioskRow): (item: KioskItem)
    requires row.cost.Some?
    ensures item.price % CostUnit == 0 && item.price / CostUnit == row.cost.value
    ensures item.altId == row.ref && item.kioskType == row.kioskType && item.image == row.icon
  {
    KioskItem(
      row.ref, Localized(ctx.localize, row.title), Localized(ctx.localize, row.desc),
      Localized(ctx.localize, row.slotLabel), row.kioskType, row.cost.value * CostUnit, row.icon)
  }

  /** The records of a table's rows, in row order. */
  function KioskRecords(ctx: Context, rows: seq<KioskRow>): (r: seq<KioskItem>)
    requires forall row <- rows :: row.cost.Some?
  {
    seq(|rows|, k requires 0 <= k < |rows| => KioskRecord(ctx, rows[k]))
  }

  /**
   * Compiling keeps the rows' cost order: one item is cheaper than another exactly when its row
   * costs less, and two items cost the same exactly when their rows do.
   */
  lemma CostOrderKept(ctx: Context, rows: seq<KioskRow>, k: int, m: int)
    requires forall row <- rows :: row.cost.Some?
    requires 0 <= k < |rows| && 0 <= m < |rows|
    ensures var items := KioskRecords(ctx, rows);
      items[k].price < items[m].price <==> rows[k].cost.value < rows[m].cost.value
    ensures var items := KioskRecords(ctx, rows);
      items[k].price == items[m].price <==> rows[k].cost.value == rows[m].cost.value
  {
    var items := KioskRecords(ctx, rows);
    assert items[k] == KioskRecord(ctx, rows[k]) && items[m] == KioskRecord(ctx, rows[m]);
    hide KioskRecords;
    var pk, pm := items[k].price, items[m].price;
    assert pk == CostUnit * rows[k].cost.value && pm == CostUnit * rows[m].cost.value;
  }

  /** KioskBR.IDs and KioskBRTruck.IDs: one record per row, in row order; a missing table leaves the list as it was. */
  method KioskIDs(ctx: Context, ids: Option<seq<KioskRow>>, items: seq<KioskItem>) returns (out: seq<KioskItem>)
    requires ids.Some? ==> forall row <- ids.value :: row.cost.Some?
    ensures ids.None? ==> out == items
    ensures ids.Some? ==> Extends(items, out, |ids.value|)
    ensures ids.Some? ==> forall k :: 0 <= k < |ids.value| ==> out[|items| + k] == KioskRecord(ctx, ids.value[k])
    ensures ids.Some? ==> out == items + KioskRecords(ctx, ids.value)
  {
    hide KioskRecord;
    out := items;
    if ids.None? {
      return;
    }
    var rows := ids.value;
    for i := 0 to |rows|
      invariant Extends(items, out, i)
      invariant forall k :: 0 <= k < i ==> out[|items| + k] == KioskRecord(ctx, rows[k])
    {
      out := out + [KioskRecord(ctx, rows[i])];
    }
    assert out == items + KioskRecords(ctx, rows);
  }
}
