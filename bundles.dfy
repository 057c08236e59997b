/**
 * XAssets/bundles.py: store bundles from loot/bundle_ids.csv. A row whose `isCollection` is
 * falsy opens a bundle; every row then appends its present item slots to the newest bundle.
 */
module Bundles {
  import opened Wrappers
  import opened Resolvers
  import opened Slots

  /** The columns of one row that the compiler reads; `items`/`hiddenItems` are the ten `itemN` cells. */
  datatype BundleRow = BundleRow(
    id: Option<int>, ref: Option<string>, name: Option<string>, description: Option<string>,
    flavorText: Option<string>, featureText: Option<string>, bundleType: Option<string>,
    license: Option<int>, image: Option<string>, titleImage: Option<string>,
    currencyID: Option<int>, currencyAmount: Option<int>, saleCurrencyAmount: Option<int>,
    giftable: Option<int>, hasOperatorMissions: Option<int>, mastercraft: Option<int>,
    reactive: Option<int>, ultraoutfit: Option<int>, isCollection: Option<int>,
    numItems: Option<int>, items: seq<Option<int>>,
    numHiddenItems: Option<int>, hiddenItems: seq<Option<int>>)

  datatype Bundle = Bundle(
    id: Option<int>, altId: Option<string>, name: Option<string>, description: Option<string>,
    flavor: Option<string>, feature: Option<string>, bundleType: Option<string>, season: Option<string>,
    available: Availability, billboard: Option<string>, logo: Option<string>,
    price: Option<int>, salePrice: Option<int>,
    giftable: bool, mission: bool, mastercraft: bool, reactive: bool, ultraSkin: bool,
    items: seq<LootReward>, hiddenItems: seq<LootReward>)

  /** The currency id of COD Points; any other currency leaves the bundle without a price. */
  const CodPoints: int := 20
  /** The amount the table uses for "not for sale". */
  const NotForSale: int := 9999
  /** The text used for a bundle type the localization does not know. */
  const VarietyTypeKey: string := "MENU/BUNDLE_TYPE_VARIETY"

  /** A price in COD Points, or None for another currency, an empty cell or the 9999 sentinel. */
  function Price(currency: Option<int>, amount: Option<int>): (p: Option<int>)
    ensures p.Some? <==> currency == Some(CodPoints) && amount.Some? && amount.value != NotForSale
    ensures p.Some? ==> p == amount
  {
    if currency != Some(CodPoints) || amount == Some(NotForSale) then None else amount
  }

  /** `localize.get(key, default)`: the default only when the key is absent, not when its text is None. */
  function LocalizedOr(loc: Localization, key: Option<string>, default: Option<string>): (r: Option<string>)
    ensures key.Some? && key.value in loc ==> r == loc[key.value]
    ensures !(key.Some? && key.value in loc) ==> r == default
  {
    if key.Some? && key.value in loc then loc[key.value] else default
  }

  /** The record a non-collection row opens, before any item is added; the license must be present. */
  function BundleRecord(ctx: Context, row: BundleRow): (b: Bundle)
    requires row.license.Some?
    ensures b.items == [] && b.hiddenItems == []
    ensures b.id == row.id && b.altId == row.ref
  {
    Bundle(
      row.id, row.ref, Localized(ctx.localize, row.name), Localized(ctx.localize, row.description),
      Localized(ctx.localize, row.flavorText), Localized(ctx.localize, row.featureText),
      LocalizedOr(ctx.localize, row.bundleType, Lookup(ctx.localize, VarietyTypeKey)),
      GetLootSeason(ctx, row.license.value), GetTitleAvailability(ctx, row.id),
      ImageOrNone(row.image), ImageOrNone(row.titleImage),
      Price(row.currencyID, row.currencyAmount), Price(row.currencyID, row.saleCurrencyAmount),
      Truthy(row.giftable), Truthy(row.hasOperatorMissions), Truthy(row.mastercraft),
      Truthy(row.reactive), Truthy(row.ultraoutfit), [], [])
  }

  // ----- Attaching items to the newest bundle -----

  function Items(b: Bundle, hidden: bool): seq<LootReward> {
    if hidden then b.hiddenItems else b.items
  }

  function AddTo(b: Bundle, hidden: bool, extra: seq<LootReward>): (r: Bundle)
    ensures Items(r, hidden) == Items(b, hidden) + extra && Items(r, !hidden) == Items(b, !hidden)
  {
    if hidden then b.(hiddenItems := b.hiddenItems + extra) else b.(items := b.items + extra)
  }

  /** `bundles[-1][...].append` for each reward; with nothing to add the newest bundle is not touched. */
  function AttachTo(bundles: seq<Bundle>, hidden: bool, extra: seq<LootReward>): (r: seq<Bundle>)
    requires bundles != [] || extra == []
    ensures |r| == |bundles|
  {
    if extra == [] then bundles
    else bundles[|bundles| - 1 := AddTo(bundles[|bundles| - 1], hidden, extra)]
  }

  lemma AttachMore(bundles: seq<Bundle>, hidden: bool, extra: seq<LootReward>, reward: LootReward)
    requires bundles != []
    ensures var r := AttachTo(bundles, hidden, extra);
      AttachTo(bundles, hidden, extra + [reward]) == r[|r| - 1 := AddTo(r[|r| - 1], hidden, [reward])]
  {
    if extra == [] {
      assert extra + [reward] == [reward];
    } else {
      var last := bundles[|bundles| - 1];
      if hidden {
        assert last.hiddenItems + extra + [reward] == last.hiddenItems + (extra + [reward]);
      } else {
        assert last.items + extra + [reward] == last.items + (extra + [reward]);
      }
    }
  }

  // ----- The whole table -----

  function Contribution(ctx: Context, row: BundleRow, hidden: bool): seq<LootReward>
    requires row.numItems.Some? && row.numHiddenItems.Some?
  {
    if hidden then ItemsOf(ctx, row.hiddenItems, row.numHiddenItems.value)
    else ItemsOf(ctx, row.items, row.numItems.value)
  }

  /**
   * What one row needs: both counts (`None + 1` raises), a license when it opens a bundle, and an
   * existing bundle when it is a collection row with items to add (`bundles[-1]` raises otherwise).
   */
  predicate EntryReadable(ctx: Context, bundles: seq<Bundle>, row: BundleRow) {
    && row.numItems.Some? && row.numHiddenItems.Some?
    && (!Truthy(row.isCollection) ==> row.license.Some?)
    && (Truthy(row.isCollection) && bundles == [] ==> Contribution(ctx, row, false) == [] && Contribution(ctx, row, true) == [])
  }

  /** The bundles after one row: a new bundle unless it is a collection row, then its items, then its hidden items. */
  function BundleStep(ctx: Context, bundles: seq<Bundle>, row: BundleRow): (r: seq<Bundle>)
    requires EntryReadable(ctx, bundles, row)
    ensures |r| == |bundles| + (if Truthy(row.isCollection) then 0 else 1)
  {
    var withNew := if Truthy(row.isCollection) then bundles else bundles + [BundleRecord(ctx, row)];
    AttachTo(AttachTo(withNew, false, Contribution(ctx, row, false)), true, Contribution(ctx, row, true))
  }

  /** No bundle exists before row k: none was given and every earlier row is a collection row. */
  predicate NoBundleBefore(acc: seq<Bundle>, rows: seq<BundleRow>, k: nat)
    requires k <= |rows|
  {
    acc == [] && forall j :: 0 <= j < k ==> Truthy(rows[j].isCollection)
  }

  predicate BundleRowsReadable(ctx: Context, acc: seq<Bundle>, rows: seq<BundleRow>) {
    forall k :: 0 <= k < |rows| ==>
      && rows[k].numItems.Some? && rows[k].numHiddenItems.Some?
      && (!Truthy(rows[k].isCollection) ==> rows[k].license.Some?)
      && (Truthy(rows[k].isCollection) && NoBundleBefore(acc, rows, k) ==>
            Contribution(ctx, rows[k], false) == [] && Contribution(ctx, rows[k], true) == [])
  }

  lemma ReadablePrefix(ctx: Context, acc: seq<Bundle>, rows: seq<BundleRow>, n: nat)
    requires n <= |rows| && BundleRowsReadable(ctx, acc, rows)
    ensures BundleRowsReadable(ctx, acc, rows[..n])
  {
    forall k | 0 <= k < n && NoBundleBefore(acc, rows[..n], k)
      ensures NoBundleBefore(acc, rows, k)
    {
      assert forall j :: 0 <= j < k ==> rows[..n][j] == rows[j];
    }
  }

  /** The bundles after the rows, read in order. */
  function BundleFold(ctx: Context, acc: seq<Bundle>, rows: seq<BundleRow>): (r: seq<Bundle>)
    requires BundleRowsReadable(ctx, acc, rows)
    ensures r == [] ==> NoBundleBefore(acc, rows, |rows|)
    decreases |rows|
  {
    if rows == [] then acc
    else
      var init := rows[..|rows| - 1];
      ReadablePrefix(ctx, acc, rows, |rows| - 1);
      var before := BundleFold(ctx, acc, init);
      assert before == [] ==> NoBundleBefore(acc, rows, |rows| - 1) by {
        assert forall j :: 0 <= j < |rows| - 1 ==> init[j] == rows[j];
      }
      BundleStep(ctx, before, rows[|rows| - 1])
  }

  /** The number of rows that open a bundle. */
  function NewBundles(rows: seq<BundleRow>): nat
    decreases |rows|
  {
    if rows == [] then 0
    else NewBundles(rows[..|rows| - 1]) + (if Truthy(rows[|rows| - 1].isCollection) then 0 else 1)
  }

  /** One bundle per row whose `isCollection` is falsy, and no other. */
  lemma {:induction false} BundleCount(ctx: Context, acc: seq<Bundle>, rows: seq<BundleRow>)
    requires BundleRowsReadable(ctx, acc, rows)
    ensures |BundleFold(ctx, acc, rows)| == |acc| + NewBundles(rows)
    decreases |rows|
  {
    if rows != [] {
      ReadablePrefix(ctx, acc, rows, |rows| - 1);
      BundleCount(ctx, acc, rows[..|rows| - 1]);
    }
  }

  /** Every item (or hidden item) of all bundles, in bundle order. */
  function AllItems(bundles: seq<Bundle>, hidden: bool): seq<LootReward>
    decreases |bundles|
  {
    if bundles == [] then []
    else AllItems(bundles[..|bundles| - 1], hidden) + Items(bundles[|bundles| - 1], hidden)
  }

  /** The items (or hidden items) the rows contribute, in row order. */
  function RowItems(ctx: Context, rows: seq<BundleRow>, hidden: bool): seq<LootReward>
    requires forall k :: 0 <= k < |rows| ==> rows[k].numItems.Some? && rows[k].numHiddenItems.Some?
    decreases |rows|
  {
    if rows == [] then []
    else RowItems(ctx, rows[..|rows| - 1], hidden) + Contribution(ctx, rows[|rows| - 1], hidden)
  }

  lemma AppendBundleAll(bundles: seq<Bundle>, b: Bundle, hidden: bool)
    ensures AllItems(bundles + [b], hidden) == AllItems(bundles, hidden) + Items(b, hidden)
  {
    assert (bundles + [b])[..|bundles|] == bundles;
  }

  lemma AttachAll(bundles: seq<Bundle>, to: bool, extra: seq<LootReward>, hidden: bool)
    requires bundles != [] || extra == []
    ensures AllItems(AttachTo(bundles, to, extra), hidden) == AllItems(bundles, hidden) + (if to == hidden then extra else [])
  {
    if extra != [] {
      var r := AttachTo(bundles, to, extra);
      assert r[..|r| - 1] == bundles[..|bundles| - 1];
    }
  }

  /** One row adds exactly its own contribution to the items of all bundles. */
  lemma StepAll(ctx: Context, before: seq<Bundle>, row: BundleRow, hidden: bool)
    requires EntryReadable(ctx, before, row)
    ensures AllItems(BundleStep(ctx, before, row), hidden) == AllItems(before, hidden) + Contribution(ctx, row, hidden)
  {
    hide ItemsOf, Contribution, BundleRecord;
    var withNew := if Truthy(row.isCollection) then before else before + [BundleRecord(ctx, row)];
    if !Truthy(row.isCollection) {
      AppendBundleAll(before, BundleRecord(ctx, row), hidden);
    }
    AttachAll(withNew, false, Contribution(ctx, row, false), hidden);
    AttachAll(AttachTo(withNew, false, Contribution(ctx, row, false)), true, Contribution(ctx, row, true), hidden);
  }

  /** No item is lost or repeated: the items of all bundles are the given ones followed by every row's present slots. */
  lemma {:induction false} ItemsConserved(ctx: Context, acc: seq<Bundle>, rows: seq<BundleRow>, hidden: bool)
    requires BundleRowsReadable(ctx, acc, rows)
    ensures AllItems(BundleFold(ctx, acc, rows), hidden) == AllItems(acc, hidden) + RowItems(ctx, rows, hidden)
    decreases |rows|
  {
    hide BundleStep, Contribution;
    if rows != [] {
      var init := rows[..|rows| - 1];
      ReadablePrefix(ctx, acc, rows, |rows| - 1);
      ItemsConserved(ctx, acc, init, hidden);
      StepAll(ctx, BundleFold(ctx, acc, init), rows[|rows| - 1], hidden);
    }
  }

  // ----- The compiler -----

  /** One `for i in range(1, n + 1)` slot loop appending to the newest bundle. */
  method AppendSlots(ctx: Context, bundles: seq<Bundle>, slots: seq<Option<int>>, n: int, hidden: bool)
    returns (out: seq<Bundle>)
    requires bundles != [] || ItemsOf(ctx, slots, n) == []
    ensures out == AttachTo(bundles, hidden, ItemsOf(ctx, slots, n))
  {
    hide RewardOf, GetLootType, AddTo;
    out := bundles;
    var i := 1;
    while i <= n
      invariant 1 <= i <= (if n < 1 then 1 else n + 1)
      invariant bundles != [] || ItemsOf(ctx, slots, i - 1) == []
      invariant out == AttachTo(bundles, hidden, ItemsOf(ctx, slots, i - 1))
    {
      var item := Slot(slots, i);
      if item.None? {
        assert ItemsOf(ctx, slots, i) == ItemsOf(ctx, slots, i - 1);
        i := i + 1;
        continue;
      }
      assert ItemsOf(ctx, slots, i) == ItemsOf(ctx, slots, i - 1) + [RewardOf(ctx, item)];
      ItemsGrow(ctx, slots, i, n);
      AttachMore(bundles, hidden, ItemsOf(ctx, slots, i - 1), RewardOf(ctx, item));
      out := out[|out| - 1 := AddTo(out[|out| - 1], hidden, [RewardOf(ctx, item)])];
      i := i + 1;
    }
  }

  /** The body of the loop for one row. */
  method BundleEntry(ctx: Context, bundles: seq<Bundle>, entry: BundleRow) returns (out: seq<Bundle>)
    requires EntryReadable(ctx, bundles, entry)
    ensures out == BundleStep(ctx, bundles, entry)
  {
    out := bundles;
    if !Truthy(entry.isCollection) {
      out := out + [BundleRecord(ctx, entry)];
    }
    out := AppendSlots(ctx, out, entry.items, entry.numItems.value, false);
    out := AppendSlots(ctx, out, entry.hiddenItems, entry.numHiddenItems.value, true);
  }

  /** Bundles.IDs: a missing table leaves the list as it was. */
  method BundleIDs(ctx: Context, ids: Option<seq<BundleRow>>, bundles: seq<Bundle>) returns (out: seq<Bundle>)
    requires ids.Some? ==> BundleRowsReadable(ctx, bundles, ids.value)
    ensures ids.None? ==> out == bundles
    ensures ids.Some? ==> out == BundleFold(ctx, bundles, ids.value)
  {
    hide BundleStep;
    out := bundles;
    if ids.None? {
      return;
    }
    var rows := ids.value;
    for i := 0 to |rows|
      invariant out == BundleFold(ctx, bundles, rows[..i])
    {
      ReadablePrefix(ctx, bundles, rows, i + 1);
      assert rows[..i + 1][..i] == rows[..i];
      out := BundleEntry(ctx, out, rows[i]);
    }
    assert rows[..|rows|] == rows;
  }
}
