/**
 * XAssets/reticles.py: reticles from loot/reticle_ids.csv, then named from mp/reticletable.csv
 * by matching each reticle's altId with a row's ref.
 */
module Reticles {
  import opened Wrappers
  import opened Resolvers

  datatype ReticleIdRow = ReticleIdRow(id: Option<int>, ref: Option<string>, rarity: Option<int>, license: Option<int>)

  /** One row of mp/reticletable.csv, reduced to the columns the join reads. */
  datatype ReticleTableRow = ReticleTableRow(
    ref: Option<string>, name: Option<string>, desc: Option<string>, image: Option<string>, hideInUI: Option<int>)

  /** A reticle; `hidden` is None until a table row sets it to a boolean. */
  datatype Reticle = Reticle(
    id: Option<int>, altId: Option<string>, name: Option<string>, description: Option<string>,
    lootType: Option<string>, rarity: Option<string>, season: Option<string>, available: Availability,
    hidden: Option<bool>, image: Option<string>, background: string)

  const ReticleBackground: string := "ui_loot_bg_generic"

  /** The record of an id row, with the table fields left empty; the license must be present. */
  function ReticleRecord(ctx: Context, row: ReticleIdRow): (r: Reticle)
    requires row.license.Some?
    ensures r.name.None? && r.description.None? && r.hidden.None? && r.image.None?
    ensures r.background == ReticleBackground
    ensures r.id == row.id && r.altId == row.ref && r.lootType == GetLootType(ctx, row.id)
  {
    Reticle(
      row.id, row.ref, None, None, GetLootType(ctx, row.id), GetLootRarity(ctx, row.rarity),
      GetLootSeason(ctx, row.license.value), GetTitleAvailability(ctx, row.id), None, None,
      ReticleBackground)
  }

  /** Reticles.IDs: one record per row, in row order; a missing table leaves the list as it was. */
  method ReticleIDs(ctx: Context, ids: Option<seq<ReticleIdRow>>, reticles: seq<Reticle>) returns (out: seq<Reticle>)
    requires ids.Some? ==> forall row <- ids.value :: row.license.Some?
    ensures ids.None? ==> out == reticles
    ensures ids.Some? ==> Extends(reticles, out, |ids.value|)
    ensures ids.Some? ==> forall k :: 0 <= k < |ids.value| ==> out[|reticles| + k] == ReticleRecord(ctx, ids.value[k])
  {
    hide ReticleRecord;
    out := reticles;
    if ids.None? {
      return;
    }
    var rows := ids.value;
    for i := 0 to |rows|
      invariant Extends(reticles, out, i)
      invariant forall k :: 0 <= k < i ==> out[|reticles| + k] == ReticleRecord(ctx, rows[k])
    {
      out := out + [ReticleRecord(ctx, rows[i])];
    }
  }

  // ----- The table join -----

  /** What one matching row writes into the reticle. */
  function Named(ctx: Context, r: Reticle, row: ReticleTableRow): (n: Reticle)
    ensures n.altId == r.altId && n.hidden == Some(Truthy(row.hideInUI)) && n.image == row.image
  {
    r.(name := Localized(ctx.localize, row.name),
       description := Localized(ctx.localize, row.desc),
       hidden := Some(Truthy(row.hideInUI)),
       image := row.image)
  }

  /** The reticle after every row whose ref equals its altId has been applied, in row order. */
  function Joined(ctx: Context, r: Reticle, table: seq<ReticleTableRow>): (j: Reticle)
    ensures j == r.(name := j.name, description := j.description, hidden := j.hidden, image := j.image)
    decreases |table|
  {
    if table == [] then r
    else
      var prev := Joined(ctx, r, table[..|table| - 1]);
      var row := table[|table| - 1];
      if r.altId == row.ref then Named(ctx, prev, row) else prev
  }

  /** The last matching row decides the name, description, hidden flag and image. */
  lemma {:induction false} LastMatchWins(ctx: Context, r: Reticle, table: seq<ReticleTableRow>, k: nat)
    requires k < |table| && table[k].ref == r.altId
    requires forall j :: k < j < |table| ==> table[j].ref != r.altId
    ensures Joined(ctx, r, table) == Named(ctx, r, table[k])
    decreases |table|
  {
    if k < |table| - 1 {
      LastMatchWins(ctx, r, table[..|table| - 1], k);
    } else {
      var prev := Joined(ctx, r, table[..k]);
      assert Named(ctx, prev, table[k]) == Named(ctx, r, table[k]);
    }
  }

  /** A reticle that no row names keeps its record as the id table built it. */
  lemma {:induction false} NoMatch(ctx: Context, r: Reticle, table: seq<ReticleTableRow>)
    requires forall j :: 0 <= j < |table| ==> table[j].ref != r.altId
    ensures Joined(ctx, r, table) == r
    decreases |table|
  {
    if table != [] {
      NoMatch(ctx, r, table[..|table| - 1]);
    }
  }

  /** The inner loop over the table for one reticle. */
  method JoinReticle(ctx: Context, reticle: Reticle, table: seq<ReticleTableRow>) returns (r: Reticle)
    ensures r == Joined(ctx, reticle, table)
  {
    r := reticle;
    for k := 0 to |table|
      invariant r == Joined(ctx, reticle, table[..k])
    {
      assert table[..k + 1][..k] == table[..k];
      var entry := table[k];
      if r.altId != entry.ref {
        continue;
      }
      r := r.(name := Localized(ctx.localize, entry.name));
      r := r.(description := Localized(ctx.localize, entry.desc));
      r := r.(hidden := Some(Truthy(entry.hideInUI)));
      r := r.(image := entry.image);
    }
    assert table[..|table|] == table;
  }

  /** Reticles.Table: no reticle is added or removed; each is joined with the table's rows. */
  method ReticleTable(ctx: Context, table: Option<seq<ReticleTableRow>>, reticles: seq<Reticle>) returns (out: seq<Reticle>)
    ensures table.None? ==> out == reticles
    ensures |out| == |reticles|
    ensures table.Some? ==> forall i :: 0 <= i < |out| ==> out[i] == Joined(ctx, reticles[i], table.value)
  {
    out := reticles;
    if table.None? {
      return;
    }
    var rows := table.value;
    for i := 0 to |out|
      invariant |out| == |reticles|
      invariant forall k :: 0 <= k < i ==> out[k] == Joined(ctx, reticles[k], rows)
      invariant forall k :: i <= k < |out| ==> out[k] == reticles[k]
    {
      var r := JoinReticle(ctx, out[i], rows);
      out := out[i := r];
    }
  }
}
