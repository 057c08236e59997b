/**
 * DBLoot in ModernWarfare/database.py: the loot of 22 XAsset files, each distinct cleaned item
 * once, then every listed variant of every weapon with its weapon's class and id.
 */
module DBLoot {
  import opened Json
  import opened Compiler

  /** The files read, in order. */
  const LootFiles: seq<string> := [
    "accessories", "battlePassItems", "callingCards", "camos", "charms", "consumables", "dlc",
    "emblems", "executions", "features", "gestures", "missionItems", "operatorQuips",
    "operatorSkins", "reticles", "specialItems", "sprays", "stickers", "unlockItemsT9",
    "vehicleCamos", "vehicleHorns", "vehicleTracks"]
  const WeaponsFile: string := "weapons"
  /** The keys every kept item loses, each popped with a default. */
  const Popped: seq<string> := [
    "altId", "altType", "hidden", "category", "operatorAltId", "pet", "unlock", "sku", "rewards",
    "challengeId", "storeIds", "items"]
  /** The keys a kept item loses when null, before the season check. */
  const Nullable: seq<string> := ["description", "flavor", "season"]
  /** The keys a kept item loses when null, after the season check. */
  const LateNullable: seq<string> := ["attribute", "exclusive"]
  const CallingCardSizes: seq<(int, int)> := [(512, 128), (512, 136), (960, 240)]
  const EmblemSizes: seq<(int, int)> := [(256, 256)]
  /** The keys a kept variant loses when null, each popped without a default. */
  const VariantNullable: seq<string> := ["flavor", "season", "tracers", "dismemberment"]
  const VariantSizes: seq<(int, int)> := [(300, 400)]

  // ----- Loot files -----

  /** An item is looked at when it has its five fields and, in the DLC file, is a consumable. */
  predicate Listed(file: string, item: Record) {
    HasAll(item, ["id", "name", "type", "rarity", "image"]) && (file != "dlc" || Get(item, "altType") == JStr("consumable"))
  }

  function Images(file: string, item: Record): seq<Json> {
    if Listed(file, item) then [Get(item, "image")] else []
  }

  predicate Kept(env: Env, file: string, item: Record) {
    Listed(file, item) && env.fileExists(Get(item, "image"))
  }


  /** Only calling cards and emblems are asked about animation, each with its own frame sizes. */
  function Animated(env: Env, itemType: Json, image: Json): bool {
    if itemType == JStr("Calling Card") then env.animate(image, CallingCardSizes)
    else if itemType == JStr("Emblem") then env.animate(image, EmblemSizes)
    else false
  }

  /** The popped keys gone, the null and unreleased fields dropped and the default availability removed. */
  function Trimmed(item: Record): Record {
    DropAvailability(DropNulls(Released(DropNulls(Without(item, Popped), Nullable)), LateNullable))
  }

  /** An item as the database holds it. */
  function LootOut(env: Env, item: Record): Record {
    Finished(env, Trimmed(item), Animated(env, Get(item, "type"), Get(item, "image")), Get(item, "name"))
  }

  /** One item: a kept item is added unless an equal record is already there. */
  function LootStep(env: Env, db: seq<Record>, file: string, item: Record): seq<Record> {
    if !Kept(env, file, item) || LootOut(env, item) in db then db else db + [LootOut(env, item)]
  }

  /** The list after the items of one file. */
  function LootFile(env: Env, db: seq<Record>, file: string, items: seq<Record>): seq<Record>
    decreases |items|
  {
    if items == [] then db
    else LootStep(env, LootFile(env, db, file, items[..|items| - 1]), file, items[|items| - 1])
  }

  /** The list after the files, in order. */
  function LootAll(env: Env, db: seq<Record>, files: seq<string>): seq<Record>
    decreases |files|
  {
    if files == [] then db
    else
      var f := files[|files| - 1];
      LootFile(env, LootAll(env, db, files[..|files| - 1]), f, env.read(f))
  }

  function FileImages(file: string, items: seq<Record>): seq<Json>
    decreases |items|
  {
    if items == [] then [] else FileImages(file, items[..|items| - 1]) + Images(file, items[|items| - 1])
  }

  function FilesImages(env: Env, files: seq<string>): seq<Json>
    decreases |files|
  {
    if files == [] then []
    else
      var f := files[|files| - 1];
      FilesImages(env, files[..|files| - 1]) + FileImages(f, env.read(f))
  }

  predicate Distinct(db: seq<Record>) {
    forall i, j :: 0 <= i < j < |db| ==> db[i] != db[j]
  }

  /** No record is added twice: a distinct list stays distinct. */
  lemma {:induction false} LootFileDistinct(env: Env, db: seq<Record>, file: string, items: seq<Record>)
    requires Distinct(db)
    ensures Distinct(LootFile(env, db, file, items))
    decreases |items|
  {
    hide LootOut;
    if items != [] {
      LootFileDistinct(env, db, file, items[..|items| - 1]);
    }
  }

  lemma {:induction false} LootFilesDistinct(env: Env, db: seq<Record>, files: seq<string>)
    requires Distinct(db)
    ensures Distinct(LootAll(env, db, files))
    decreases |files|
  {
    hide LootOut;
    if files != [] {
      LootFilesDistinct(env, db, files[..|files| - 1]);
      var f := files[|files| - 1];
      LootFileDistinct(env, LootAll(env, db, files[..|files| - 1]), f, env.read(f));
    }
  }

  /** After a file, the list holds what it held and the cleaned form of every kept item of the file, and nothing else. */
  lemma {:induction false} LootFileExactly(env: Env, db: seq<Record>, file: string, items: seq<Record>, x: Record)
    ensures x in LootFile(env, db, file, items) <==>
      x in db || exists j :: 0 <= j < |items| && Kept(env, file, items[j]) && x == LootOut(env, items[j])
    decreases |items|
  {
    hide LootOut, Kept;
    if items != [] {
      var init := items[..|items| - 1];
      LootFileExactly(env, db, file, init, x);
      if exists j :: 0 <= j < |init| && Kept(env, file, init[j]) && x == LootOut(env, init[j]) {
        var j :| 0 <= j < |init| && Kept(env, file, init[j]) && x == LootOut(env, init[j]);
        assert items[j] == init[j];
      }
      if exists j :: 0 <= j < |items| && Kept(env, file, items[j]) && x == LootOut(env, items[j]) {
        var j :| 0 <= j < |items| && Kept(env, file, items[j]) && x == LootOut(env, items[j]);
        if j < |init| {
          assert init[j] == items[j];
        }
      }
    }
  }

  /** A record the loot files produce is in the list exactly when some file has a kept item that cleans to it. */
  lemma {:induction false} LootFilesExactly(env: Env, files: seq<string>, x: Record)
    ensures x in LootAll(env, [], files) <==>
      exists i, j :: 0 <= i < |files| && 0 <= j < |env.read(files[i])| &&
        Kept(env, files[i], env.read(files[i])[j]) && x == LootOut(env, env.read(files[i])[j])
    decreases |files|
  {
    hide LootOut, Kept;
    if files != [] {
      var init := files[..|files| - 1];
      var f := files[|files| - 1];
      LootFilesExactly(env, init, x);
      LootFileExactly(env, LootAll(env, [], init), f, env.read(f), x);
      if exists i, j :: 0 <= i < |init| && 0 <= j < |env.read(init[i])| &&
          Kept(env, init[i], env.read(init[i])[j]) && x == LootOut(env, env.read(init[i])[j]) {
        var i, j :| 0 <= i < |init| && 0 <= j < |env.read(init[i])| &&
          Kept(env, init[i], env.read(init[i])[j]) && x == LootOut(env, env.read(init[i])[j]);
        assert files[i] == init[i];
      }
      if exists i, j :: 0 <= i < |files| && 0 <= j < |env.read(files[i])| &&
          Kept(env, files[i], env.read(files[i])[j]) && x == LootOut(env, env.read(files[i])[j]) {
        var i, j :| 0 <= i < |files| && 0 <= j < |env.read(files[i])| &&
          Kept(env, files[i], env.read(files[i])[j]) && x == LootOut(env, env.read(files[i])[j]);
        if i < |init| {
          assert init[i] == files[i];
        }
      }
    }
  }

  lemma LootKeysApart()
    ensures forall k :: k in Nullable ==> k !in Popped
    ensures forall k :: k in LateNullable ==> k !in Popped && k !in Nullable && k != "season"
    ensures "season" in Nullable && "available" !in Popped && "available" !in Nullable && "available" !in LateNullable
    ensures forall k :: k in Popped ==> k != "slug" && k != "animated" && k != "available" && k != "season"
    ensures forall k :: k in Nullable ==> k != "slug" && k != "animated" && k != "available"
    ensures forall k :: k in LateNullable ==> k != "slug" && k != "animated" && k != "available"
  {
  }

  /**
   * A kept item loses every popped key, and keeps an optional field only when it is not null;
   * its season is never the unreleased one.
   */
  lemma LootTrimmed(env: Env, item: Record)
    ensures var out := LootOut(env, item);
      && (forall k :: k in Popped ==> k !in out)
      && (forall k :: (k in Nullable || k in LateNullable) && k in out ==> out[k] != JNull)
      && Get(out, "season") != JStr(UnreleasedSeason)
      && Get(out, "slug") == Slug(env, item)
  {
    hide DropAvailability, DropNulls, Released, Without, Finished;
    LootKeysApart();
    var w := Without(item, Popped);
    var n := DropNulls(w, Nullable);
    var r := Released(n);
    var l := DropNulls(r, LateNullable);
    AvailabilityDropped(l);
    var out := LootOut(env, item);
    forall k | k in Popped
      ensures k !in out
    {
      assert k !in w && k !in n && k !in r && k !in l;
    }
    forall k | (k in Nullable || k in LateNullable) && k in out
      ensures out[k] != JNull
    {
      assert k in l && out[k] == l[k];
    }
    if "season" in out {
      assert out["season"] == l["season"] == r["season"];
    }
  }

  /** Every other field of a kept item is kept as it was. */
  lemma LootFieldKept(env: Env, item: Record, k: string)
    requires k in item && k !in Popped && k !in Nullable && k !in LateNullable
    requires k != "available" && k != "animated" && k != "slug"
    ensures var out := LootOut(env, item); k in out && out[k] == item[k]
  {
    hide DropAvailability, DropNulls, Released, Without, Finished;
    LootKeysApart();
    var l := DropNulls(Released(DropNulls(Without(item, Popped), Nullable)), LateNullable);
    AvailabilityDropped(l);
  }

  /** A calling card or emblem is flagged animated when AnimateSprite says so; no other item is flagged. */
  lemma LootAnimation(env: Env, item: Record)
    requires "animated" !in item
    ensures var t := Get(item, "type");
      && ("animated" in LootOut(env, item) <==>
          (t == JStr("Calling Card") && env.animate(Get(item, "image"), CallingCardSizes))
          || (t == JStr("Emblem") && env.animate(Get(item, "image"), EmblemSizes)))
  {
    hide DropAvailability, DropNulls, Released, Without;
    LootKeysApart();
    var l := DropNulls(Released(DropNulls(Without(item, Popped), Nullable)), LateNullable);
    AvailabilityDropped(l);
    assert JStr("Calling Card") != JStr("Emblem");
  }

  // ----- Weapon variants -----

  predicate VariantListed(v: Record) {
    HasAll(v, ["id", "name", "type", "image"])
  }

  function VariantImages(v: Record): seq<Json> {
    if VariantListed(v) then [Get(v, "image")] else []
  }

  predicate VariantKept(env: Env, v: Record) {
    VariantListed(v) && env.fileExists(Get(v, "image"))
  }

  /** A kept variant must have its altId and the four keys popped when null. */
  predicate VariantReadable(env: Env, v: Record) {
    VariantKept(env, v) ==> "altId" in v && HasKeys(v, VariantNullable)
  }

  /** A weapon's variants must be a list of such dictionaries. */
  predicate WeaponReadable(env: Env, w: Record) {
    IsObjects(Get(w, "variants")) && forall v :: v in Objects(Get(w, "variants")) ==> VariantReadable(env, v)
  }

  /** A kept variant as the database holds it: its weapon's class and id added. */
  function VariantOut(env: Env, w: Record, v: Record): Record {
    var trimmed := DropAvailability(Released(DropNulls(Without(v, ["altId"]), VariantNullable)));
    var placed := trimmed["class" := Get(w, "class")]["baseId" := Get(w, "id")];
    Finished(env, placed, env.animate(Get(v, "image"), VariantSizes), Get(v, "name"))
  }

  /** The kept variants of one weapon, in order. */
  function Variants(env: Env, w: Record, vs: seq<Record>): seq<Record>
    decreases |vs|
  {
    if vs == [] then []
    else
      var prev := Variants(env, w, vs[..|vs| - 1]);
      var v := vs[|vs| - 1];
      if VariantKept(env, v) then prev + [VariantOut(env, w, v)] else prev
  }

  /** The kept variants of all weapons, weapon by weapon. */
  function WeaponVariants(env: Env, weapons: seq<Record>): seq<Record>
    requires forall w :: w in weapons ==> WeaponReadable(env, w)
    decreases |weapons|
  {
    if weapons == [] then []
    else
      var w := weapons[|weapons| - 1];
      assert w in weapons && WeaponReadable(env, w);
      WeaponVariants(env, weapons[..|weapons| - 1]) + Variants(env, w, Objects(Get(w, "variants")))
  }

  function VariantsImages(vs: seq<Record>): seq<Json>
    decreases |vs|
  {
    if vs == [] then [] else VariantsImages(vs[..|vs| - 1]) + VariantImages(vs[|vs| - 1])
  }

  function WeaponVariantsImages(weapons: seq<Record>): seq<Json>
    requires forall w :: w in weapons ==> IsObjects(Get(w, "variants"))
    decreases |weapons|
  {
    if weapons == [] then []
    else
      var w := weapons[|weapons| - 1];
      WeaponVariantsImages(weapons[..|weapons| - 1]) + VariantsImages(Objects(Get(w, "variants")))
  }

  lemma VariantKeysApart()
    ensures forall k :: k in VariantNullable ==> k != "altId" && k != "class" && k != "baseId" && k != "slug" && k != "animated" && k != "available"
    ensures "season" in VariantNullable
  {
  }

  /**
   * A kept variant loses its altId and its null fields, never carries the unreleased season, and
   * records the class and id of the weapon it belongs to.
   */
  lemma VariantTrimmed(env: Env, w: Record, v: Record)
    ensures var out := VariantOut(env, w, v);
      && "altId" !in out
      && (forall k :: k in VariantNullable && k in out ==> out[k] != JNull)
      && Get(out, "season") != JStr(UnreleasedSeason)
      && Get(out, "class") == Get(w, "class")
      && Get(out, "baseId") == Get(w, "id")
      && Get(out, "slug") == Slug(env, v)
  {
    hide DropAvailability, DropNulls, Released, Without, Finished;
    VariantKeysApart();
    var n := DropNulls(Without(v, ["altId"]), VariantNullable);
    var r := Released(n);
    AvailabilityDropped(r);
    var out := VariantOut(env, w, v);
    forall k | k in VariantNullable && k in out
      ensures out[k] != JNull
    {
      assert out[k] == r[k] == n[k];
    }
    if "season" in out {
      assert out["season"] == r["season"];
    }
  }

  /** The variants of a weapon in the list are exactly its kept variants, each cleaned. */
  lemma {:induction false} VariantsExactly(env: Env, w: Record, vs: seq<Record>, x: Record)
    ensures x in Variants(env, w, vs) <==> exists j :: 0 <= j < |vs| && VariantKept(env, vs[j]) && x == VariantOut(env, w, vs[j])
    decreases |vs|
  {
    hide VariantOut, VariantKept;
    if vs != [] {
      var init := vs[..|vs| - 1];
      VariantsExactly(env, w, init, x);
      if exists j :: 0 <= j < |init| && VariantKept(env, init[j]) && x == VariantOut(env, w, init[j]) {
        var j :| 0 <= j < |init| && VariantKept(env, init[j]) && x == VariantOut(env, w, init[j]);
        assert vs[j] == init[j];
      }
      if exists j :: 0 <= j < |vs| && VariantKept(env, vs[j]) && x == VariantOut(env, w, vs[j]) {
        var j :| 0 <= j < |vs| && VariantKept(env, vs[j]) && x == VariantOut(env, w, vs[j]);
        if j < |init| {
          assert init[j] == vs[j];
        }
      }
    }
  }

  /** One more loot file: the list grows by that file's items and the images by its images. */
  lemma LootAllStep(env: Env, files: seq<string>, f: nat)
    requires f < |files|
    ensures LootAll(env, [], files[..f + 1]) == LootFile(env, LootAll(env, [], files[..f]), files[f], env.read(files[f]))
    ensures FilesImages(env, files[..f + 1]) == FilesImages(env, files[..f]) + FileImages(files[f], env.read(files[f]))
  {
    assert files[..f + 1][..f] == files[..f];
  }

  /** One more item of a loot file. */
  lemma LootFileStep(env: Env, db: seq<Record>, file: string, items: seq<Record>, i: nat)
    requires i < |items|
    ensures LootFile(env, db, file, items[..i + 1]) == LootStep(env, LootFile(env, db, file, items[..i]), file, items[i])
    ensures FileImages(file, items[..i + 1]) == FileImages(file, items[..i]) + Images(file, items[i])
  {
    assert items[..i + 1][..i] == items[..i];
  }

  /** One more variant of a weapon. */
  lemma VariantsStep(env: Env, w: Record, vs: seq<Record>, i: nat)
    requires i < |vs|
    ensures Variants(env, w, vs[..i + 1]) ==
      Variants(env, w, vs[..i]) + (if VariantKept(env, vs[i]) then [VariantOut(env, w, vs[i])] else [])
    ensures VariantsImages(vs[..i + 1]) == VariantsImages(vs[..i]) + VariantImages(vs[i])
  {
    assert vs[..i + 1][..i] == vs[..i];
  }

  /** One more weapon: its variants follow those of the weapons before it. */
  lemma WeaponVariantsStep(env: Env, weapons: seq<Record>, i: nat)
    requires i < |weapons| && forall w :: w in weapons ==> WeaponReadable(env, w)
    ensures forall w :: w in weapons[..i] ==> WeaponReadable(env, w)
    ensures WeaponReadable(env, weapons[i])
    ensures forall w :: w in weapons[..i] ==> IsObjects(Get(w, "variants"))
    ensures WeaponVariants(env, weapons[..i + 1]) ==
      WeaponVariants(env, weapons[..i]) + Variants(env, weapons[i], Objects(Get(weapons[i], "variants")))
    ensures WeaponVariantsImages(weapons[..i + 1]) ==
      WeaponVariantsImages(weapons[..i]) + VariantsImages(Objects(Get(weapons[i], "variants")))
  {
    assert weapons[..i + 1][..i] == weapons[..i];
    assert weapons[i] in weapons;
  }
}
