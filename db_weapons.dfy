/**
 * DBWeapons in ModernWarfare/database.py: every weapon with its id, name, type and icon, holding
 * the ids of its variants instead of the variants themselves.
 */
module DBWeapons {
  import opened Json
  import opened Compiler

  const WeaponsFile: string := "weapons"
  /** The keys every kept weapon loses, each popped without a default. */
  const Popped: seq<string> := ["maxAttachments", "attachments", "image"]
  /** The keys a kept weapon loses when null, each popped without a default. */
  const Nullable: seq<string> := ["description", "season"]

  // ----- Variants -----

  /** A variant's id is kept when it has an id, name, type and image; no file is asked about. */
  predicate VariantListed(v: Record) {
    HasAll(v, ["id", "name", "type", "image"])
  }

  /** The ids of the listed variants, in list order. */
  function VariantIds(vs: seq<Record>): seq<Json>
    decreases |vs|
  {
    if vs == [] then []
    else
      var prev := VariantIds(vs[..|vs| - 1]);
      var v := vs[|vs| - 1];
      if VariantListed(v) then prev + [Get(v, "id")] else prev
  }

  /** An id is kept exactly when some listed variant has it. */
  lemma {:induction false} VariantIdsExactly(vs: seq<Record>, x: Json)
    ensures x in VariantIds(vs) <==> exists j :: 0 <= j < |vs| && VariantListed(vs[j]) && Get(vs[j], "id") == x
    decreases |vs|
  {
    hide VariantListed;
    if vs != [] {
      var init := vs[..|vs| - 1];
      VariantIdsExactly(init, x);
      if exists j :: 0 <= j < |init| && VariantListed(init[j]) && Get(init[j], "id") == x {
        var j :| 0 <= j < |init| && VariantListed(init[j]) && Get(init[j], "id") == x;
        assert vs[j] == init[j];
      }
      if exists j :: 0 <= j < |vs| && VariantListed(vs[j]) && Get(vs[j], "id") == x {
        var j :| 0 <= j < |vs| && VariantListed(vs[j]) && Get(vs[j], "id") == x;
        if j < |init| {
          assert init[j] == vs[j];
        }
      }
    }
  }

  /** No variant id is null: each comes from a variant that has one. */
  lemma {:induction false} VariantIdsPresent(vs: seq<Record>)
    ensures forall x :: x in VariantIds(vs) ==> x != JNull
    decreases |vs|
  {
    if vs != [] {
      VariantIdsPresent(vs[..|vs| - 1]);
      var v := vs[|vs| - 1];
      if VariantListed(v) {
        assert "id" in ["id", "name", "type", "image"];
      }
    }
  }

  // ----- Weapons -----

  predicate Listed(w: Record) {
    HasAll(w, ["id", "name", "type", "icon"])
  }

  /** A listed weapon must hold a list of variant dictionaries and every key popped without a default. */
  predicate Readable(w: Record) {
    Listed(w) ==> IsObjects(Get(w, "variants")) && HasKeys(w, Popped) && HasKeys(w, Nullable)
  }


  /** The ids of the weapon's listed variants, from the variants sorted by name and rarity. */
  function WeaponVariantIds(env: Env, w: Record): seq<Json>
    requires IsObjects(Get(w, "variants"))
  {
    VariantIds(env.sortList(Objects(Get(w, "variants")), "name", "rarity"))
  }

  /** The weapon with its variant ids in place of its variants. */
  function WithIds(env: Env, w: Record): (r: Record)
    requires IsObjects(Get(w, "variants"))
    ensures Get(r, "variants") == JList(WeaponVariantIds(env, w))
    ensures forall k :: k != "variants" ==> (k in r <==> k in w) && (k in r ==> r[k] == w[k])
  {
    w["variants" := JList(WeaponVariantIds(env, w))]
  }

  /** A listed weapon as the database holds it. */
  function WeaponOut(env: Env, w: Record): Record
    requires Listed(w) && Readable(w)
  {
    Finished(env, DropAvailability(Released(DropNulls(Without(WithIds(env, w), Popped), Nullable))), false, Get(w, "name"))
  }

  /** The kept weapons, in file order. */
  function Weapons(env: Env, ws: seq<Record>): seq<Record>
    requires forall w :: w in ws ==> Readable(w)
    decreases |ws|
  {
    if ws == [] then []
    else
      var prev := Weapons(env, ws[..|ws| - 1]);
      var w := ws[|ws| - 1];
      if Listed(w) then prev + [WeaponOut(env, w)] else prev
  }

  /** The icon of every kept weapon, in file order. */
  function WeaponsImages(ws: seq<Record>): seq<Json>
    decreases |ws|
  {
    if ws == [] then []
    else WeaponsImages(ws[..|ws| - 1]) + (if Listed(ws[|ws| - 1]) then [Get(ws[|ws| - 1], "icon")] else [])
  }

  /** The database holds exactly the listed weapons, each cleaned. */
  lemma {:induction false} WeaponsExactly(env: Env, ws: seq<Record>, x: Record)
    requires forall w :: w in ws ==> Readable(w)
    ensures x in Weapons(env, ws) <==> exists j :: 0 <= j < |ws| && Listed(ws[j]) && x == WeaponOut(env, ws[j])
    decreases |ws|
  {
    hide WeaponOut, Listed, Readable;
    if ws != [] {
      var init := ws[..|ws| - 1];
      WeaponsExactly(env, init, x);
      if exists j :: 0 <= j < |init| && Listed(init[j]) && x == WeaponOut(env, init[j]) {
        var j :| 0 <= j < |init| && Listed(init[j]) && x == WeaponOut(env, init[j]);
        assert ws[j] == init[j];
      }
      if exists j :: 0 <= j < |ws| && Listed(ws[j]) && x == WeaponOut(env, ws[j]) {
        var j :| 0 <= j < |ws| && Listed(ws[j]) && x == WeaponOut(env, ws[j]);
        if j < |init| {
          assert init[j] == ws[j];
        }
      }
    }
  }

  /** Every kept weapon contributes its icon, and only kept weapons do. */
  lemma {:induction false} WeaponsImagesExactly(ws: seq<Record>, x: Json)
    ensures x in WeaponsImages(ws) <==> exists j :: 0 <= j < |ws| && Listed(ws[j]) && Get(ws[j], "icon") == x
    decreases |ws|
  {
    hide Listed;
    if ws != [] {
      var init := ws[..|ws| - 1];
      WeaponsImagesExactly(init, x);
      if exists j :: 0 <= j < |init| && Listed(init[j]) && Get(init[j], "icon") == x {
        var j :| 0 <= j < |init| && Listed(init[j]) && Get(init[j], "icon") == x;
        assert ws[j] == init[j];
      }
      if exists j :: 0 <= j < |ws| && Listed(ws[j]) && Get(ws[j], "icon") == x {
        var j :| 0 <= j < |ws| && Listed(ws[j]) && Get(ws[j], "icon") == x;
        if j < |init| {
          assert init[j] == ws[j];
        }
      }
    }
  }

  lemma KeysApart()
    ensures forall k :: k in Popped ==> k != "variants" && k != "slug" && k != "available" && k !in Nullable
    ensures forall k :: k in Nullable ==> k != "variants" && k != "slug" && k != "available"
    ensures "variants" !in Popped && "variants" !in Nullable && "season" in Nullable && "description" in Nullable
  {
  }

  /**
   * A kept weapon holds its variant ids and its slug, has lost the popped keys, keeps no null
   * description or season and never the unreleased season.
   */
  lemma WeaponTrimmed(env: Env, w: Record)
    requires Listed(w) && Readable(w)
    ensures var out := WeaponOut(env, w);
      && Get(out, "variants") == JList(WeaponVariantIds(env, w))
      && Get(out, "slug") == Slug(env, w)
      && (forall k :: k in Popped ==> k !in out)
      && (forall k :: k in Nullable && k in out ==> out[k] != JNull)
      && Get(out, "season") != JStr(UnreleasedSeason)
  {
    hide DropAvailability, DropNulls, Released, Without, Finished, WithIds;
    KeysApart();
    var i := WithIds(env, w);
    var t := Without(i, Popped);
    var n := DropNulls(t, Nullable);
    var r := Released(n);
    AvailabilityDropped(r);
    var out := WeaponOut(env, w);
    assert "variants" in i && "variants" in t && "variants" in n && "variants" in r;
    forall k | k in Popped
      ensures k !in out
    {
      assert k !in t && k !in n && k !in r;
    }
    forall k | k in Nullable && k in out
      ensures out[k] != JNull
    {
      assert out[k] == r[k] == n[k];
    }
    if "season" in out {
      assert out["season"] == r["season"];
    }
  }

  /** Every other field of a kept weapon passes through unchanged. */
  lemma WeaponFieldKept(env: Env, w: Record, k: string)
    requires Listed(w) && Readable(w)
    requires k !in Popped && k !in Nullable && k != "variants" && k != "slug" && k != "available"
    ensures (k in WeaponOut(env, w) <==> k in w) && Get(WeaponOut(env, w), k) == Get(w, k)
  {
    hide DropAvailability, DropNulls, Released, Without, Finished, WithIds;
    var i := WithIds(env, w);
    var t := Without(i, Popped);
    var n := DropNulls(t, Nullable);
    var r := Released(n);
    var a := DropAvailability(r);
    var out := Finished(env, a, false, Get(w, "name"));
    assert out == WeaponOut(env, w);
    AvailabilityDropped(r);
    assert (k in out <==> k in a) && Get(out, k) == Get(a, k);
    assert (k in a <==> k in r) && Get(a, k) == Get(r, k);
    assert (k in r <==> k in n) && Get(r, k) == Get(n, k);
    assert (k in n <==> k in t) && Get(n, k) == Get(t, k);
    assert (k in t <==> k in i) && Get(t, k) == Get(i, k);
  }

  /** A kept weapon keeps an optional field exactly when it is not null, and the season only when released. */
  lemma WeaponNullsDropped(env: Env, w: Record, k: string)
    requires Listed(w) && Readable(w)
    requires k in Nullable
    ensures k in WeaponOut(env, w) <==> !IsNull(w, k) && (k == "season" ==> w[k] != JStr(UnreleasedSeason))
  {
    hide DropAvailability, DropNulls, Released, Without, Finished, WithIds;
    KeysApart();
    var i := WithIds(env, w);
    var t := Without(i, Popped);
    var n := DropNulls(t, Nullable);
    var r := Released(n);
    AvailabilityDropped(r);
    assert k in i <==> k in w;
    assert k in i ==> i[k] == w[k];
  }

  /** The variant loop of a listed weapon: the id of every listed variant, in order. */
  method CollectVariantIds(vs: seq<Record>) returns (ids: seq<Json>)
    ensures ids == VariantIds(vs)
  {
    ids := [];
    for i := 0 to |vs|
      invariant ids == VariantIds(vs[..i])
    {
      assert vs[..i + 1][..i] == vs[..i];
      var v := vs[i];
      if VariantListed(v) {
        ids := ids + [Get(v, "id")];
      }
    }
    assert vs[..|vs|] == vs;
  }

  /** One more weapon of the file: the list and the images grow by its contribution. */
  lemma WeaponsStep(env: Env, ws: seq<Record>, i: nat)
    requires i < |ws| && forall w :: w in ws ==> Readable(w)
    ensures forall w :: w in ws[..i] ==> Readable(w)
    ensures Readable(ws[i])
    ensures Weapons(env, ws[..i + 1]) == Weapons(env, ws[..i]) + (if Listed(ws[i]) then [WeaponOut(env, ws[i])] else [])
    ensures WeaponsImages(ws[..i + 1]) == WeaponsImages(ws[..i]) + (if Listed(ws[i]) then [Get(ws[i], "icon")] else [])
  {
    assert ws[..i + 1][..i] == ws[..i];
    assert ws[i] in ws;
  }
}
