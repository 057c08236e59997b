/**
 * DBBundles in ModernWarfare/database.py: the store bundles whose billboard and logo exist, then
 * the durable DLC entries whose image exists, each listed as a bundle of its content ids.
 */
module DBBundles {
  import opened Json
  import opened Compiler

  const BundlesFile: string := "bundles"
  const DlcFile: string := "dlc"
  /** The frame size AnimateSprite is asked about for a billboard. */
  const BillboardSizes: seq<(int, int)> := [(1920, 580)]
  /** The keys every kept bundle loses, each popped without a default. */
  const Popped: seq<string> := ["altId", "giftable", "mission", "mastercraft", "reactive", "ultraSkin", "hiddenItems"]
  /** The keys a kept bundle loses when they are null, each popped without a default. */
  const Nullable: seq<string> := ["description", "flavor", "feature", "season", "salePrice"]
  /** The keys a kept durable DLC entry loses, each popped with a default. */
  const DurablePopped: seq<string> := ["altId", "altType", "storeIds", "image"]
  const DurableType: string := "durable"
  const OperatorKey: string := "LOOT_MP/OPERATOR"
  const VarietyKey: string := "MENU/BUNDLE_TYPE_VARIETY"

  // ----- Store bundles -----

  /** The five fields a bundle must have to be looked at. */
  predicate Listed(b: Record) {
    HasAll(b, ["id", "name", "type", "billboard", "logo"])
  }

  /** The images a bundle adds to the image list: its billboard and logo once it is listed. */
  function Images(b: Record): seq<Json> {
    if Listed(b) then [Get(b, "billboard"), Get(b, "logo")] else []
  }

  /** A listed bundle is kept when both its images exist. */
  predicate Kept(env: Env, b: Record) {
    Listed(b) && env.fileExists(Get(b, "billboard")) && env.fileExists(Get(b, "logo"))
  }

  /** What a kept bundle must hold for the compiler not to fail: a list of items and every popped key. */
  predicate Readable(env: Env, b: Record) {
    Kept(env, b) ==> IsObjects(Get(b, "items")) && HasKeys(b, Popped) && HasKeys(b, Nullable)
  }

  /** `item.get("id")` for every item. */
  function ItemIds(items: seq<Record>): (ids: seq<Json>)
    ensures |ids| == |items|
  {
    seq(|items|, k requires 0 <= k < |items| => Get(items[k], "id"))
  }

  /** The key lists the compiler works through do not overlap. */
  lemma KeysApart()
    ensures forall k :: k in Nullable ==> k !in Popped
    ensures "items" !in Popped && "items" !in Nullable
    ensures "name" !in Popped && "name" !in Nullable && "billboard" !in Popped && "billboard" !in Nullable
    ensures "flavor" in Nullable && "available" !in Popped && "available" !in Nullable
    ensures "slug" !in Popped && "animated" !in Popped
  {
  }

  /** The item ids in place of the items, the popped keys gone and the null optional fields dropped. */
  function Stripped(b: Record): (r: Record)
    requires IsObjects(Get(b, "items"))
    ensures forall k :: k in Popped ==> k !in r
    ensures forall k :: k in Nullable ==> (k in r <==> k in b && b[k] != JNull)
    ensures "items" in r && r["items"] == JList(ItemIds(Objects(b["items"])))
    ensures forall k :: k in r && k != "items" ==> k in b && r[k] == b[k]
    ensures forall k :: k in b && k !in Popped && k !in Nullable ==> k in r
  {
    KeysApart();
    DropNulls(Without(b["items" := JList(ItemIds(Objects(Get(b, "items"))))], Popped), Nullable)
  }

  /** The flavor text is dropped when it repeats the name. */
  function Plain(r: Record): (out: Record)
    ensures "flavor" in out <==> "flavor" in r && Get(r, "flavor") != Get(r, "name")
    ensures forall k :: k != "flavor" ==> (k in out <==> k in r)
    ensures forall k :: k in out ==> out[k] == r[k]
  {
    if Get(r, "name") == Get(r, "flavor") then r - {"flavor"} else r
  }

  /** A kept bundle as the database holds it, its fields changed in the order the compiler changes them. */
  function BundleOut(env: Env, b: Record): Record
    requires Kept(env, b) && Readable(env, b)
  {
    Finished(env, DropAvailability(Plain(Stripped(b))), env.animate(Get(b, "billboard"), BillboardSizes), Get(b, "name"))
  }

  /** The kept bundles, in file order. */
  function Bundles(env: Env, bundles: seq<Record>): seq<Record>
    requires forall b :: b in bundles ==> Readable(env, b)
    decreases |bundles|
  {
    if bundles == [] then []
    else
      var prev := Bundles(env, bundles[..|bundles| - 1]);
      var b := bundles[|bundles| - 1];
      if Kept(env, b) then prev + [BundleOut(env, b)] else prev
  }

  /** The images the bundle loop adds, in order. */
  function BundleImages(bundles: seq<Record>): seq<Json>
    decreases |bundles|
  {
    if bundles == [] then [] else BundleImages(bundles[..|bundles| - 1]) + Images(bundles[|bundles| - 1])
  }

  /** The database holds exactly the kept bundles. */
  lemma {:induction false} BundlesExactly(env: Env, bundles: seq<Record>, x: Record)
    requires forall b :: b in bundles ==> Readable(env, b)
    ensures x in Bundles(env, bundles) <==>
      exists j :: 0 <= j < |bundles| && Kept(env, bundles[j]) && x == BundleOut(env, bundles[j])
    decreases |bundles|
  {
    hide BundleOut, Readable;
    if bundles != [] {
      var init := bundles[..|bundles| - 1];
      BundlesExactly(env, init, x);
      if exists j :: 0 <= j < |init| && Kept(env, init[j]) && x == BundleOut(env, init[j]) {
        var j :| 0 <= j < |init| && Kept(env, init[j]) && x == BundleOut(env, init[j]);
        assert bundles[j] == init[j];
      }
      if exists j :: 0 <= j < |bundles| && Kept(env, bundles[j]) && x == BundleOut(env, bundles[j]) {
        var j :| 0 <= j < |bundles| && Kept(env, bundles[j]) && x == BundleOut(env, bundles[j]);
        if j < |init| {
          assert init[j] == bundles[j];
        }
      }
    }
  }

  /** Every listed bundle's billboard and logo are in the image list, kept or not. */
  lemma {:induction false} ListedImagesCollected(bundles: seq<Record>, j: nat)
    requires j < |bundles| && Listed(bundles[j])
    ensures Get(bundles[j], "billboard") in BundleImages(bundles) && Get(bundles[j], "logo") in BundleImages(bundles)
    decreases |bundles|
  {
    if j < |bundles| - 1 {
      ListedImagesCollected(bundles[..|bundles| - 1], j);
    }
  }

  /** A kept bundle keeps its flavor text only when it is not null and differs from its name. */
  lemma BundleFlavor(env: Env, b: Record)
    requires Kept(env, b) && Readable(env, b)
    ensures "flavor" in BundleOut(env, b) <==> !IsNull(b, "flavor") && Get(b, "flavor") != Get(b, "name")
  {
    hide Stripped, Plain, Finished, DropAvailability;
    var stripped := Stripped(b);
    var plain := Plain(stripped);
    AvailabilityDropped(plain);
    KeysApart();
    assert Get(stripped, "name") == Get(b, "name");
  }

  /** A kept bundle loses the popped keys. */
  lemma BundlePopped(env: Env, b: Record)
    requires Kept(env, b) && Readable(env, b)
    ensures forall k :: k in Popped ==> k !in BundleOut(env, b)
  {
    hide Stripped, Plain, Finished, DropAvailability;
    var stripped := Stripped(b);
    var plain := Plain(stripped);
    AvailabilityDropped(plain);
    KeysApart();
    var out := BundleOut(env, b);
    assert out == Finished(env, DropAvailability(plain), env.animate(Get(b, "billboard"), BillboardSizes), Get(b, "name"));
    forall k | k in Popped
      ensures k !in out
    {
      assert k !in stripped && k != "slug" && k != "animated" && k != "available";
    }
  }

  /** A kept bundle keeps an optional field other than its flavor text exactly when it is not null. */
  lemma BundleNullsDropped(env: Env, b: Record, k: string)
    requires Kept(env, b) && Readable(env, b)
    requires k in Nullable && k != "flavor"
    ensures k in BundleOut(env, b) <==> !IsNull(b, k)
  {
    hide Stripped, Plain, Finished, DropAvailability;
    var stripped := Stripped(b);
    var plain := Plain(stripped);
    AvailabilityDropped(plain);
    KeysApart();
    assert k != "slug" && k != "animated" && k != "available";
    assert k in plain <==> k in stripped;
  }

  /**
   * A kept bundle lists its item ids, gets its slug and, when AnimateSprite says so, the animated
   * flag; every other field it keeps is the one it had, and only the popped keys, null optional
   * fields and the default availability are lost.
   */
  lemma BundleFieldsKept(env: Env, b: Record)
    requires Kept(env, b) && Readable(env, b)
    ensures var out := BundleOut(env, b);
      && Get(out, "items") == JList(ItemIds(Objects(Get(b, "items"))))
      && Get(out, "slug") == Slug(env, b)
      && (env.animate(Get(b, "billboard"), BillboardSizes) ==> Get(out, "animated") == JBool(true))
      && (forall k :: k in out && k != "items" && k != "slug" && k != "animated" ==> k in b && out[k] == b[k])
      && (forall k :: k in b && k !in Popped && k !in Nullable && k != "available" ==> k in out)
  {
    hide Stripped, Plain, Finished, DropAvailability;
    var stripped := Stripped(b);
    var plain := Plain(stripped);
    AvailabilityDropped(plain);
    KeysApart();
    var available := DropAvailability(plain);
    var out := BundleOut(env, b);
    assert out == Finished(env, available, env.animate(Get(b, "billboard"), BillboardSizes), Get(b, "name"));
    forall k | k in out && k != "items" && k != "slug" && k != "animated"
      ensures k in b && out[k] == b[k]
    {
      assert k in available && out[k] == available[k] == plain[k] == stripped[k];
    }
    forall k | k in b && k !in Popped && k !in Nullable && k != "available"
      ensures k in out
    {
      assert k in stripped;
      assert k != "flavor";
    }
  }

  // ----- Durable DLC -----

  /** The fields a DLC entry must have to be looked at: it is durable and has an id, name and image. */
  predicate DurableListed(e: Record) {
    Get(e, "altType") == JStr(DurableType) && HasAll(e, ["id", "name", "image"])
  }

  function DurableImages(e: Record): seq<Json> {
    if DurableListed(e) then [Get(e, "image")] else []
  }

  predicate DurableKept(env: Env, e: Record) {
    DurableListed(e) && env.fileExists(Get(e, "image"))
  }

  /** A kept entry's items must be a list of dictionaries. */
  predicate DurableReadable(env: Env, e: Record) {
    DurableKept(env, e) ==> IsObjects(Get(e, "items"))
  }

  /** Some bundle of the bundle file has this id (whether or not it was kept). */
  predicate IsBundleId(bundles: seq<Record>, id: Json) {
    exists b :: b in bundles && Get(b, "id") == id
  }

  /** An item whose type is the localized operator type is no content. */
  predicate IsOperator(env: Env, item: Record) {
    Get(item, "type") == LocalizedJson(env, OperatorKey)
  }

  /** The content ids of a durable entry: the items that are no operator and no bundle, in order. */
  function ContentIds(env: Env, bundles: seq<Record>, items: seq<Record>): seq<Json>
    decreases |items|
  {
    if items == [] then []
    else
      var prev := ContentIds(env, bundles, items[..|items| - 1]);
      var item := items[|items| - 1];
      if IsOperator(env, item) || IsBundleId(bundles, Get(item, "id")) then prev else prev + [Get(item, "id")]
  }

  /** An id is content exactly when some item with it is no operator and it is no bundle's id. */
  lemma {:induction false} ContentIdsExactly(env: Env, bundles: seq<Record>, items: seq<Record>, x: Json)
    ensures x in ContentIds(env, bundles, items) <==>
      !IsBundleId(bundles, x) && exists j :: 0 <= j < |items| && !IsOperator(env, items[j]) && Get(items[j], "id") == x
    decreases |items|
  {
    if items != [] {
      var init := items[..|items| - 1];
      ContentIdsExactly(env, bundles, init, x);
      if exists j :: 0 <= j < |init| && !IsOperator(env, init[j]) && Get(init[j], "id") == x {
        var j :| 0 <= j < |init| && !IsOperator(env, init[j]) && Get(init[j], "id") == x;
        assert items[j] == init[j];
      }
      if exists j :: 0 <= j < |items| && !IsOperator(env, items[j]) && Get(items[j], "id") == x {
        var j :| 0 <= j < |items| && !IsOperator(env, items[j]) && Get(items[j], "id") == x;
        if j < |init| {
          assert init[j] == items[j];
        }
      }
    }
  }

  /** The content ids in place of the items, the DLC-only keys gone, the image as billboard and no price. */
  function Priced(env: Env, bundles: seq<Record>, e: Record): (r: Record)
    requires IsObjects(Get(e, "items"))
    ensures forall k :: k in DurablePopped ==> k !in r
    ensures "items" in r && r["items"] == JList(ContentIds(env, bundles, Objects(e["items"])))
    ensures "billboard" in r && r["billboard"] == Get(e, "image")
    ensures "price" in r && r["price"] == JNull
    ensures forall k :: k !in DurablePopped && k != "items" && k != "billboard" && k != "price" ==>
      (k in r <==> k in e) && (k in r ==> r[k] == e[k])
  {
    var withItems := e["items" := JList(ContentIds(env, bundles, Objects(Get(e, "items"))))];
    assert "items" !in DurablePopped;
    Without(withItems, DurablePopped)["billboard" := Get(e, "image")]["price" := JNull]
  }

  /** A missing or null type becomes the localized variety type. */
  function Typed(env: Env, r: Record): (out: Record)
    ensures "type" in out
    ensures !IsNull(r, "type") ==> out["type"] == r["type"]
    ensures IsNull(r, "type") ==> out["type"] == LocalizedJson(env, VarietyKey)
    ensures forall k :: k != "type" ==> (k in out <==> k in r) && (k in out ==> out[k] == r[k])
  {
    if IsNull(r, "type") then r["type" := LocalizedJson(env, VarietyKey)] else r
  }

  /** A kept durable entry as the database holds it. */
  function DurableOut(env: Env, bundles: seq<Record>, e: Record): Record
    requires DurableKept(env, e) && DurableReadable(env, e)
  {
    Finished(env, Typed(env, Priced(env, bundles, e)), env.animate(Get(e, "image"), BillboardSizes), Get(e, "name"))
  }

  /** The kept durable entries, in file order. */
  function Durables(env: Env, bundles: seq<Record>, dlc: seq<Record>): seq<Record>
    requires forall e :: e in dlc ==> DurableReadable(env, e)
    decreases |dlc|
  {
    if dlc == [] then []
    else
      var prev := Durables(env, bundles, dlc[..|dlc| - 1]);
      var e := dlc[|dlc| - 1];
      if DurableKept(env, e) then prev + [DurableOut(env, bundles, e)] else prev
  }

  function DurablesImages(dlc: seq<Record>): seq<Json>
    decreases |dlc|
  {
    if dlc == [] then [] else DurablesImages(dlc[..|dlc| - 1]) + DurableImages(dlc[|dlc| - 1])
  }

  /** The database holds exactly the kept durable entries. */
  lemma {:induction false} DurablesExactly(env: Env, bundles: seq<Record>, dlc: seq<Record>, x: Record)
    requires forall e :: e in dlc ==> DurableReadable(env, e)
    ensures x in Durables(env, bundles, dlc) <==>
      exists j :: 0 <= j < |dlc| && DurableKept(env, dlc[j]) && x == DurableOut(env, bundles, dlc[j])
    decreases |dlc|
  {
    hide DurableOut, DurableReadable;
    if dlc != [] {
      var init := dlc[..|dlc| - 1];
      DurablesExactly(env, bundles, init, x);
      if exists j :: 0 <= j < |init| && DurableKept(env, init[j]) && x == DurableOut(env, bundles, init[j]) {
        var j :| 0 <= j < |init| && DurableKept(env, init[j]) && x == DurableOut(env, bundles, init[j]);
        assert dlc[j] == init[j];
      }
      if exists j :: 0 <= j < |dlc| && DurableKept(env, dlc[j]) && x == DurableOut(env, bundles, dlc[j]) {
        var j :| 0 <= j < |dlc| && DurableKept(env, dlc[j]) && x == DurableOut(env, bundles, dlc[j]);
        if j < |init| {
          assert init[j] == dlc[j];
        }
      }
    }
  }

  /**
   * A kept durable entry is listed like a bundle: its image becomes its billboard, it has no
   * price, it has a type whenever the variety text exists, and it loses its DLC-only keys.
   */
  lemma DurableCleaned(env: Env, bundles: seq<Record>, e: Record)
    requires DurableKept(env, e) && DurableReadable(env, e)
    ensures var out := DurableOut(env, bundles, e);
      && (forall k :: k in DurablePopped ==> k !in out)
      && Get(out, "billboard") == Get(e, "image")
      && "price" in out && out["price"] == JNull
      && Get(out, "items") == JList(ContentIds(env, bundles, Objects(Get(e, "items"))))
      && (!IsNull(e, "type") ==> Get(out, "type") == Get(e, "type"))
      && (IsNull(e, "type") ==> "type" in out && out["type"] == LocalizedJson(env, VarietyKey))
      && Get(out, "slug") == Slug(env, e)
  {
    hide Priced, Typed, Finished;
    DurableKeysApart();
    var priced := Priced(env, bundles, e);
    assert Get(priced, "type") == Get(e, "type");
  }

  /** Every other field a kept durable entry had is kept as it was. */
  lemma DurableFieldsKept(env: Env, bundles: seq<Record>, e: Record, k: string)
    requires DurableKept(env, e) && DurableReadable(env, e)
    requires k in e && k !in DurablePopped && k != "items" && k != "billboard" && k != "price"
    requires k != "type" && k != "animated" && k != "slug"
    ensures var out := DurableOut(env, bundles, e); k in out && out[k] == e[k]
  {
    hide Priced, Typed, Finished;
  }

  lemma DurableKeysApart()
    ensures "type" !in DurablePopped && "items" !in DurablePopped && "billboard" !in DurablePopped
    ensures "price" !in DurablePopped && "slug" !in DurablePopped && "animated" !in DurablePopped
  {
  }

  /** `items.remove(itemId)`: the first occurrence is taken out. */
  function RemoveFirst(s: seq<Json>, x: Json): (r: seq<Json>)
    ensures x in s ==> |r| == |s| - 1 && multiset(r) == multiset(s) - multiset{x}
    ensures x !in s ==> r == s
  {
    if s == [] then []
    else
      assert s == [s[0]] + s[1..];
      if s[0] == x then s[1..] else [s[0]] + RemoveFirst(s[1..], x)
  }

  /** Removing an id just appended to a list that did not hold it undoes the append. */
  lemma {:induction false} RemoveAppended(s: seq<Json>, x: Json)
    requires x !in s
    ensures RemoveFirst(s + [x], x) == s
    decreases |s|
  {
    if s != [] {
      assert (s + [x])[1..] == s[1..] + [x];
      RemoveAppended(s[1..], x);
      assert s == [s[0]] + s[1..];
    }
  }

  /** The inner search over the bundle file, which stops at the first bundle with the id. */
  method FindBundle(bundles: seq<Record>, id: Json) returns (found: bool)
    ensures found <==> IsBundleId(bundles, id)
  {
    found := false;
    for i := 0 to |bundles|
      invariant !found
      invariant forall k :: 0 <= k < i ==> Get(bundles[k], "id") != id
    {
      if id == Get(bundles[i], "id") {
        found := true;
        return;
      }
    }
  }

  /**
   * The item loop of a durable entry: an operator is skipped, every other id is appended and taken
   * out again when a bundle has it.
   */
  method Contents(env: Env, bundles: seq<Record>, items: seq<Record>) returns (ids: seq<Json>)
    ensures ids == ContentIds(env, bundles, items)
    ensures forall x :: x in ids ==> !IsBundleId(bundles, x)
  {
    ids := [];
    for i := 0 to |items|
      invariant ids == ContentIds(env, bundles, items[..i])
      invariant forall x :: x in ids ==> !IsBundleId(bundles, x)
    {
      assert items[..i + 1][..i] == items[..i];
      var item := items[i];
      if Get(item, "type") == LocalizedJson(env, OperatorKey) {
        continue;
      }
      var itemId := Get(item, "id");
      ids := ids + [itemId];
      var found := FindBundle(bundles, itemId);
      if found {
        assert itemId !in ids[..|ids| - 1];
        assert ids[..|ids| - 1] + [itemId] == ids;
        RemoveAppended(ids[..|ids| - 1], itemId);
        ids := RemoveFirst(ids, itemId);
      }
    }
    assert items[..|items|] == items;
  }

  /** The item loop of a kept bundle: the id of every item, in order. */
  method CollectIds(items: seq<Record>) returns (ids: seq<Json>)
    ensures ids == ItemIds(items)
  {
    ids := [];
    for i := 0 to |items|
      invariant |ids| == i
      invariant forall k :: 0 <= k < i ==> ids[k] == Get(items[k], "id")
    {
      ids := ids + [Get(items[i], "id")];
    }
  }

  /** One more bundle of the file: the list and the images grow by its contribution. */
  lemma BundlesStep(env: Env, bundles: seq<Record>, i: nat)
    requires i < |bundles| && forall b :: b in bundles ==> Readable(env, b)
    ensures forall b :: b in bundles[..i] ==> Readable(env, b)
    ensures Readable(env, bundles[i])
    ensures Bundles(env, bundles[..i + 1]) ==
      Bundles(env, bundles[..i]) + (if Kept(env, bundles[i]) then [BundleOut(env, bundles[i])] else [])
    ensures BundleImages(bundles[..i + 1]) == BundleImages(bundles[..i]) + Images(bundles[i])
  {
    assert bundles[..i + 1][..i] == bundles[..i];
    assert bundles[i] in bundles;
  }

  /** One more DLC entry: the list and the images grow by its contribution. */
  lemma DurablesStep(env: Env, bundles: seq<Record>, dlc: seq<Record>, i: nat)
    requires i < |dlc| && forall e :: e in dlc ==> DurableReadable(env, e)
    ensures forall e :: e in dlc[..i] ==> DurableReadable(env, e)
    ensures DurableReadable(env, dlc[i])
    ensures Durables(env, bundles, dlc[..i + 1]) ==
      Durables(env, bundles, dlc[..i]) + (if DurableKept(env, dlc[i]) then [DurableOut(env, bundles, dlc[i])] else [])
    ensures DurablesImages(dlc[..i + 1]) == DurablesImages(dlc[..i]) + DurableImages(dlc[i])
  {
    assert dlc[..i + 1][..i] == dlc[..i];
    assert dlc[i] in dlc;
  }
}
