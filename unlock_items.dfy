/** XAssets/unlockItems.py: Black Ops Cold War unlock items from loot/t9_unlock_items.csv. */
module UnlockItems {
  import opened Wrappers
  import opened Resolvers

  datatype UnlockRow = UnlockRow(
    id: Option<int>, ref: Option<string>, quality: Option<int>, name: Option<string>,
    description: Option<string>, classname: Option<string>, image: Option<string>, license: Option<int>)

  datatype UnlockItem = UnlockItem(
    id: Option<int>, altId: Option<string>, name: Option<string>, description: Option<string>,
    lootType: Option<string>, rarity: Option<string>, season: Option<string>, image: Option<string>,
    background: string)

  const UnlockBackground: string := "ui_loot_bg_generic"

  /** The record of a row; the license must be present. */
  function UnlockRecord(ctx: Context, row: UnlockRow): UnlockItem
    requires row.license.Some?
  {
    UnlockItem(
      row.id, row.ref, Localized(ctx.localize, row.name), Localized(ctx.localize, row.description),
      Localized(ctx.localize, row.classname), GetLootRarity(ctx, row.quality),
      GetLootSeason(ctx, row.license.value), ImageOrNone(row.image), UnlockBackground)
  }

  /**
   * The type is the class name's text, not a loot type; the image is None exactly for an empty
   * cell or the placeholder; the season is that of the license.
   */
  lemma UnlockFields(ctx: Context, row: UnlockRow)
    requires row.license.Some?
    ensures var u := UnlockRecord(ctx, row);
      && u.lootType == Localized(ctx.localize, row.classname)
      && (u.image.None? <==> row.image.None? || row.image == Some(ImagePlaceholder))
      && (u.image.Some? ==> u.image == row.image)
      && (row.license == Some(0) ==> u.season.None?)
      && u.background == UnlockBackground
  {
  }

  /** UnlockItemsT9.Table: one record per row, in row order; a missing table leaves the list as it was. */
  method UnlockTable(ctx: Context, table: Option<seq<UnlockRow>>, unlocks: seq<UnlockItem>) returns (out: seq<UnlockItem>)
    requires table.Some? ==> forall row <- table.value :: row.license.Some?
    ensures table.None? ==> out == unlocks
    ensures table.Some? ==> Extends(unlocks, out, |table.value|)
    ensures table.Some? ==> forall k :: 0 <= k < |table.value| ==> out[|unlocks| + k] == UnlockRecord(ctx, table.value[k])
  {
    hide UnlockRecord;
    out := unlocks;
    if table.None? {
      return;
    }
    var rows := table.value;
    for i := 0 to |rows|
      invariant Extends(unlocks, out, i)
      invariant forall k :: 0 <= k < i ==> out[|unlocks| + k] == UnlockRecord(ctx, rows[k])
    {
      out := out + [UnlockRecord(ctx, rows[i])];
    }
  }
}
