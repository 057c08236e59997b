/**
 * XAssets/vehicleHorns.py: vehicle horns from loot/vehicle_horn_ids.csv, then named from
 * mp_cp/vehiclehorns.csv by matching each horn's altId with a row's ref.
 */
module VehicleHorns {
  import opened Wrappers
  import opened Text
  import opened Resolvers

  datatype HornIdRow = HornIdRow(id: Option<int>, ref: Option<string>, rarity: Option<int>, license: Option<int>)

  /**
   * One row of mp_cp/vehiclehorns.csv, reduced to the columns the join reads. The table has no
   * `flavorText` column, so the join reads that cell as empty.
   */
  datatype HornTableRow = HornTableRow(ref: Option<string>, name: Option<string>, unlockText: Option<string>, hideInUI: Option<int>)

  /** A horn; `hidden` is None until a table row sets it to a boolean. */
  datatype Horn = Horn(
    id: Option<int>, altId: Option<string>, name: Option<string>, flavor: Option<string>,
    lootType: Option<string>, rarity: Option<string>, season: Option<string>, available: Availability,
    unlock: Option<string>, hidden: Option<bool>, image: string, background: string)

  const HornImage: string := "ui_vehicle_horn"
  const HornBackground: string := "ui_loot_bg_vehicle_horn"
  /** The prefix the unlock text loses (the template followed by a space). */
  const UnlockTemplate: string := "&&1 "

  /** The record of an id row, with the text fields left for the table; the license must be present. */
  function HornRecord(ctx: Context, row: HornIdRow): (h: Horn)
    requires row.license.Some?
    ensures h.name.None? && h.flavor.None? && h.unlock.None? && h.hidden.None?
    ensures h.image == HornImage && h.background == HornBackground
    ensures h.id == row.id && h.altId == row.ref && h.lootType == GetLootType(ctx, row.id)
  {
    Horn(
      row.id, row.ref, None, None, GetLootType(ctx, row.id), GetLootRarity(ctx, row.rarity),
      GetLootSeason(ctx, row.license.value), GetTitleAvailability(ctx, row.id), None, None,
      HornImage, HornBackground)
  }

  /** VehicleHorns.IDs: one record per row, in row order; a missing table leaves the list as it was. */
  method HornIDs(ctx: Context, ids: Option<seq<HornIdRow>>, horns: seq<Horn>) returns (out: seq<Horn>)
    requires ids.Some? ==> forall row <- ids.value :: row.license.Some?
    ensures ids.None? ==> out == horns
    ensures ids.Some? ==> Extends(horns, out, |ids.value|)
    ensures ids.Some? ==> forall k :: 0 <= k < |ids.value| ==> out[|horns| + k] == HornRecord(ctx, ids.value[k])
  {
    hide HornRecord;
    out := horns;
    if ids.None? {
      return;
    }
    var rows := ids.value;
    for i := 0 to |rows|
      invariant Extends(horns, out, i)
      invariant forall k :: 0 <= k < i ==> out[|horns| + k] == HornRecord(ctx, rows[k])
    {
      out := out + [HornRecord(ctx, rows[i])];
    }
  }

  // ----- The table join -----

  /** A matching row calls `.replace` on its unlock text, so that text must exist. */
  predicate JoinReadable(ctx: Context, h: Horn, table: seq<HornTableRow>) {
    forall k :: 0 <= k < |table| && table[k].ref == h.altId ==> Localized(ctx.localize, table[k].unlockText).Some?
  }

  /** What one matching row writes into the horn. */
  function Named(ctx: Context, h: Horn, row: HornTableRow): (r: Horn)
    requires Localized(ctx.localize, row.unlockText).Some?
    ensures r.altId == h.altId && r.flavor.None?
  {
    h.(name := Localized(ctx.localize, row.name),
       flavor := None,
       unlock := Some(Replace(Localized(ctx.localize, row.unlockText).value, UnlockTemplate, "")),
       hidden := Some(Truthy(row.hideInUI)))
  }

  /** The horn after every row whose ref equals its altId has been applied, in row order. */
  function Joined(ctx: Context, h: Horn, table: seq<HornTableRow>): (r: Horn)
    requires JoinReadable(ctx, h, table)
    ensures r == h.(name := r.name, flavor := r.flavor, unlock := r.unlock, hidden := r.hidden)
    decreases |table|
  {
    if table == [] then h
    else
      var prev := Joined(ctx, h, table[..|table| - 1]);
      var row := table[|table| - 1];
      if h.altId == row.ref then Named(ctx, prev, row) else prev
  }

  /** The last matching row decides every joined field. */
  lemma {:induction false} LastMatchWins(ctx: Context, h: Horn, table: seq<HornTableRow>, k: nat)
    requires JoinReadable(ctx, h, table)
    requires k < |table| && table[k].ref == h.altId
    requires forall j :: k < j < |table| ==> table[j].ref != h.altId
    ensures Joined(ctx, h, table) == Named(ctx, h, table[k])
    decreases |table|
  {
    if k < |table| - 1 {
      LastMatchWins(ctx, h, table[..|table| - 1], k);
    } else {
      var prev := Joined(ctx, h, table[..k]);
      assert Named(ctx, prev, table[k]) == Named(ctx, h, table[k]);
    }
  }

  /** A horn that no row names keeps its record as the id table built it. */
  lemma {:induction false} NoMatch(ctx: Context, h: Horn, table: seq<HornTableRow>)
    requires forall j :: 0 <= j < |table| ==> table[j].ref != h.altId
    ensures Joined(ctx, h, table) == h
    decreases |table|
  {
    if table != [] {
      NoMatch(ctx, h, table[..|table| - 1]);
    }
  }

  /** Unlock text "&&1 " + rest with no further template loses just the template. */
  lemma UnlockDropsTemplate(ctx: Context, h: Horn, row: HornTableRow, rest: string)
    requires Localized(ctx.localize, row.unlockText) == Some(UnlockTemplate + rest)
    requires !Occurs(rest, UnlockTemplate)
    ensures Named(ctx, h, row).unlock == Some(rest)
  {
    var none: string := [];
    ReplaceOnce(none, UnlockTemplate, rest, "");
    assert none + UnlockTemplate + rest == UnlockTemplate + rest;
    assert none + "" + rest == rest;
  }

  /** The inner loop over the table for one horn. */
  method JoinHorn(ctx: Context, horn: Horn, table: seq<HornTableRow>) returns (h: Horn)
    requires JoinReadable(ctx, horn, table)
    ensures h == Joined(ctx, horn, table)
  {
    h := horn;
    for k := 0 to |table|
      invariant h == Joined(ctx, horn, table[..k])
    {
      assert table[..k + 1][..k] == table[..k];
      var entry := table[k];
      if h.altId != entry.ref {
        continue;
      }
      h := h.(name := Localized(ctx.localize, entry.name));
      h := h.(flavor := None);
      h := h.(unlock := Some(Replace(Localized(ctx.localize, entry.unlockText).value, UnlockTemplate, "")));
      h := h.(hidden := Some(Truthy(entry.hideInUI)));
    }
    assert table[..|table|] == table;
  }

  /** VehicleHorns.Table: no horn is added or removed; each is joined with the table's rows. */
  method HornTable(ctx: Context, table: Option<seq<HornTableRow>>, horns: seq<Horn>) returns (out: seq<Horn>)
    requires table.Some? ==> forall h <- horns :: JoinReadable(ctx, h, table.value)
    ensures table.None? ==> out == horns
    ensures |out| == |horns|
    ensures table.Some? ==> forall i :: 0 <= i < |out| ==> out[i] == Joined(ctx, horns[i], table.value)
  {
    out := horns;
    if table.None? {
      return;
    }
    var rows := table.value;
    for i := 0 to |out|
      invariant |out| == |horns|
      invariant forall k :: 0 <= k < i ==> out[k] == Joined(ctx, horns[k], rows)
      invariant forall k :: i <= k < |out| ==> out[k] == horns[k]
    {
      var h := JoinHorn(ctx, out[i], rows);
      out := out[i := h];
    }
  }
}
