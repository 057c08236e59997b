/**
 * ModernWarfare/database.py: the pass that turns compiled XAsset records into the tracker
 * database. Each compiler keeps the records that have their required fields, removes the fields
 * the database does not use, collects image names and counts what it keeps; the image names are
 * finally written out in chunks.
 */
module Database {
  import opened Wrappers
  import opened Json
  import opened Compiler
  import DBBattlePasses
  import DBBundles
  import DBLoot
  import DBOperators
  import DBWeapons

  // ----- Image chunks -----

  /** A chunk grows only while it stays shorter than this many characters. */
  const ChunkLimit: nat := 30000
  /** What follows every flushed chunk: ten line breaks. */
  const ChunkBreak: string := "\n\n\n\n\n\n\n\n\n\n"

  /** `f"{image},"`. */
  function Entry(image: string): string {
    image + ","
  }

  /** The loop's two strings, with `imgWhole` kept as the list of chunks flushed into it. */
  datatype ChunkState = ChunkState(flushed: seq<string>, pending: string)

  /** One iteration: extend the pending chunk, or flush it and start a new one with the image. */
  function ChunkStep(s: ChunkState, image: string): ChunkState {
    if |s.pending| + |Entry(image)| < ChunkLimit then ChunkState(s.flushed, s.pending + Entry(image))
    else ChunkState(s.flushed + [s.pending], Entry(image))
  }

  /** The state after the images, in iteration order. */
  function Chunked(order: seq<string>): ChunkState
    decreases |order|
  {
    if order == [] then ChunkState([], "")
    else ChunkStep(Chunked(order[..|order| - 1]), order[|order| - 1])
  }

  /** Flushed chunks, each followed by the ten line breaks, as `imgWhole` holds them. */
  function Joined(chunks: seq<string>): string
    decreases |chunks|
  {
    if chunks == [] then "" else Joined(chunks[..|chunks| - 1]) + chunks[|chunks| - 1] + ChunkBreak
  }

  function Concat(chunks: seq<string>): string
    decreases |chunks|
  {
    if chunks == [] then "" else Concat(chunks[..|chunks| - 1]) + chunks[|chunks| - 1]
  }

  /** Every image followed by a comma, in order: what the chunks are cut from. */
  function Listed(order: seq<string>): string
    decreases |order|
  {
    if order == [] then "" else Listed(order[..|order| - 1]) + Entry(order[|order| - 1])
  }

  /** The text of `_images.txt` as the code writes it: the pending chunk only when nothing was flushed. */
  function ImagesFileAsWritten(order: seq<string>): string {
    var s := Chunked(order);
    var whole := Joined(s.flushed);
    if |whole| == 0 && |s.pending| > 0 then s.pending else whole
  }

  /** The text with the last chunk written as well. */
  function ImagesFile(order: seq<string>): string {
    var s := Chunked(order);
    Joined(s.flushed) + s.pending
  }

  /** The chunks are the listed images cut into pieces: nothing is lost, repeated or reordered. */
  lemma {:induction false} ChunksConserve(order: seq<string>)
    ensures Concat(Chunked(order).flushed) + Chunked(order).pending == Listed(order)
    decreases |order|
  {
    if order != [] {
      var init := order[..|order| - 1];
      ChunksConserve(init);
      var s := Chunked(init);
      var x := order[|order| - 1];
      if |s.pending| + |Entry(x)| >= ChunkLimit {
        assert (s.flushed + [s.pending])[..|s.flushed|] == s.flushed;
      }
    }
  }

  /** A chunk reaches the limit only when it is a single image that alone is that long. */
  lemma {:induction false} ChunksBounded(order: seq<string>)
    ensures var s := Chunked(order);
      forall c :: c in s.flushed + [s.pending] ==>
        |c| < ChunkLimit || exists j :: 0 <= j < |order| && c == Entry(order[j])
    decreases |order|
  {
    if order != [] {
      var init := order[..|order| - 1];
      ChunksBounded(init);
      var s := Chunked(init);
      forall c | c in s.flushed + [s.pending] && |c| >= ChunkLimit
        ensures exists j :: 0 <= j < |order| && c == Entry(order[j])
      {
        var j :| 0 <= j < |init| && c == Entry(init[j]);
        assert order[j] == init[j];
      }
      assert Entry(order[|order| - 1]) == Entry(order[|order| - 1]);
    }
  }

  /** One flush step: the written text grows by the chunk and the break. */
  lemma {:induction false} FlushedChunksBroken(chunks: seq<string>, c: string)
    ensures Joined(chunks + [c]) == Joined(chunks) + c + ChunkBreak
  {
    assert (chunks + [c])[..|chunks|] == chunks;
  }

  /** The written text of two runs of chunks is the text of the first followed by that of the second. */
  lemma {:induction false} JoinedAppend(a: seq<string>, b: seq<string>)
    ensures Joined(a + b) == Joined(a) + Joined(b)
    decreases |b|
  {
    if b == [] {
      assert a + b == a;
    } else {
      var init := b[..|b| - 1];
      JoinedAppend(a, init);
      assert (a + b)[..|a + b| - 1] == a + init;
      assert (a + b)[|a + b| - 1] == b[|b| - 1];
    }
  }

  /** Every flushed chunk, wherever it stands, is followed by exactly the ten line breaks. */
  lemma EveryChunkBroken(chunks: seq<string>, k: int)
    requires 0 <= k < |chunks|
    ensures Joined(chunks) == Joined(chunks[..k]) + chunks[k] + ChunkBreak + Joined(chunks[k + 1..])
  {
    var before, after := chunks[..k], chunks[k + 1..];
    assert chunks == before + [chunks[k]] + after;
    JoinedAppend(before + [chunks[k]], after);
    FlushedChunksBroken(before, chunks[k]);
  }

  // ----- Line breaks -----

  predicate NoBreak(s: string) {
    '\n' !in s
  }

  /** The text with every line break deleted. */
  function Unbroken(s: string): (r: string)
    ensures NoBreak(r)
    decreases |s|
  {
    if s == [] then "" else Unbroken(s[..|s| - 1]) + (if s[|s| - 1] == '\n' then "" else [s[|s| - 1]])
  }

  lemma {:induction false} UnbrokenAppend(a: string, b: string)
    ensures Unbroken(a + b) == Unbroken(a) + Unbroken(b)
    decreases |b|
  {
    if b != [] {
      var init := b[..|b| - 1];
      assert (a + b)[..|a + b| - 1] == a + init;
      var last := b[|b| - 1];
      assert (a + b)[|a + b| - 1] == last;
      var t: string := if last == '\n' then "" else [last];
      UnbrokenAppend(a, init);
      assert Unbroken(a + b) == Unbroken(a + init) + t;
      assert Unbroken(b) == Unbroken(init) + t;
      assert Unbroken(a) + Unbroken(init) + t == Unbroken(a) + (Unbroken(init) + t);
    } else {
      assert a + b == a;
      assert Unbroken(a) + "" == Unbroken(a);
    }
  }

  lemma {:induction false} UnbrokenFree(s: string)
    requires NoBreak(s)
    ensures Unbroken(s) == s
    decreases |s|
  {
    if s != [] {
      UnbrokenFree(s[..|s| - 1]);
    }
  }

  lemma {:induction false} UnbrokenJoined(chunks: seq<string>)
    requires forall c :: c in chunks ==> NoBreak(c)
    ensures Unbroken(Joined(chunks)) == Concat(chunks)
    decreases |chunks|
  {
    if chunks != [] {
      var init := chunks[..|chunks| - 1];
      var c := chunks[|chunks| - 1];
      assert forall x :: x in init ==> x in chunks;
      UnbrokenJoined(init);
      assert Joined(chunks) == Joined(init) + c + ChunkBreak;
      UnbrokenAppend(Joined(init) + c, ChunkBreak);
      UnbrokenAppend(Joined(init), c);
      UnbrokenFree(c);
      BreakVanishes();
    }
  }

  lemma {:induction false} ChunksHaveNoBreak(order: seq<string>)
    requires forall j :: 0 <= j < |order| ==> NoBreak(order[j])
    ensures var s := Chunked(order); NoBreak(s.pending) && forall c :: c in s.flushed ==> NoBreak(c)
    decreases |order|
  {
    if order != [] {
      ChunksHaveNoBreak(order[..|order| - 1]);
    }
  }

  /** Deleting the line breaks from the file with its last chunk gives every image, comma-terminated, in order. */
  lemma ImagesFileKeepsAll(order: seq<string>)
    requires forall j :: 0 <= j < |order| ==> NoBreak(order[j])
    ensures Unbroken(ImagesFile(order)) == Listed(order)
  {
    var s := Chunked(order);
    ChunksHaveNoBreak(order);
    ChunksConserve(order);
    UnbrokenAppend(Joined(s.flushed), s.pending);
    UnbrokenJoined(s.flushed);
    UnbrokenFree(s.pending);
  }

  /**
   * Two images whose entries do not fit in one chunk: the code writes the first chunk and loses
   * the second image, while the file with its last chunk keeps both.
   */
  lemma AsWrittenLosesLastChunk(a: string, b: string)
    requires |Entry(a)| < ChunkLimit && |Entry(a)| + |Entry(b)| >= ChunkLimit
    requires NoBreak(a) && NoBreak(b)
    ensures ImagesFileAsWritten([a, b]) == Entry(a) + ChunkBreak
    ensures Unbroken(ImagesFileAsWritten([a, b])) != Listed([a, b])
    ensures Unbroken(ImagesFile([a, b])) == Listed([a, b])
  {
    TwoChunks(a, b);
    FlushedChunksBroken([], Entry(a));
    assert ImagesFileAsWritten([a, b]) == Entry(a) + ChunkBreak;
    assert Listed([a, b]) == Entry(a) + Entry(b) by {
      assert [a, b][..1] == [a];
      assert [a][..0] == [];
      assert Listed([a]) == "" + Entry(a);
      assert "" + Entry(a) == Entry(a);
    }
    hide Unbroken;
    UnbrokenAppend(Entry(a), ChunkBreak);
    UnbrokenFree(Entry(a));
    BreakVanishes();
    assert |Entry(a) + Entry(b)| > |Entry(a)|;
    ImagesFileKeepsAll([a, b]);
  }

  lemma TwoChunks(a: string, b: string)
    requires |Entry(a)| < ChunkLimit && |Entry(a)| + |Entry(b)| >= ChunkLimit
    ensures Chunked([a, b]) == ChunkState([Entry(a)], Entry(b))
  {
    assert [a, b][..1] == [a];
    assert [a][..0] == [];
    assert "" + Entry(a) == Entry(a);
    assert Chunked([a]) == ChunkState([], Entry(a));
    assert [] + [Entry(a)] == [Entry(a)];
  }

  lemma BreakVanishes()
    ensures Unbroken(ChunkBreak) == ""
  {
    UnbrokenAllBreaks(ChunkBreak);
  }

  lemma {:induction false} UnbrokenAllBreaks(s: string)
    requires forall k :: 0 <= k < |s| ==> s[k] == '\n'
    ensures Unbroken(s) == ""
    decreases |s|
  {
    if s != [] {
      UnbrokenAllBreaks(s[..|s| - 1]);
    }
  }

  // ----- The compiler state -----

  /** The fields of the compiler object that the database pass updates: `dbImages` and `count`. */
  class Database {
    var images: seq<Json>
    var count: nat

    /** `self.dbImages = []` and `self.count = 0`. */
    constructor ()
      ensures images == [] && count == 0
    {
      images := [];
      count := 0;
    }

    /**
     * The image loop of Database.Compile: every distinct image once, in an order the set chooses,
     * `show` standing for the f-string's `str`. `whole` is the text the code writes; `complete`
     * is that text with the last chunk written as well, which keeps every image.
     */
    method WriteImages(show: Json -> string) returns (whole: string, complete: string, ghost order: seq<Json>)
      ensures forall x :: x in order <==> x in images
      ensures forall i, j :: 0 <= i < j < |order| ==> order[i] != order[j]
      ensures whole == ImagesFileAsWritten(Shown(show, order))
      ensures complete == ImagesFile(Shown(show, order))
      ensures whole <= complete
    {
      var remaining := set x | x in images;
      var chunk := "";
      whole := "";
      order := [];
      ghost var flushed: seq<string> := [];
      while remaining != {}
        invariant forall x :: x in order <==> x in images && x !in remaining
        invariant forall x :: x in remaining ==> x in images
        invariant forall i, j :: 0 <= i < j < |order| ==> order[i] != order[j]
        invariant Chunked(Shown(show, order)) == ChunkState(flushed, chunk)
        invariant whole == Joined(flushed)
        decreases remaining
      {
        var image :| image in remaining;
        remaining := remaining - {image};
        assert Shown(show, order + [image]) == Shown(show, order) + [show(image)];
        if |chunk| + |Entry(show(image))| < ChunkLimit {
          chunk := chunk + Entry(show(image));
        } else {
          FlushedChunksBroken(flushed, chunk);
          whole := whole + chunk + ChunkBreak;
          flushed := flushed + [chunk];
          chunk := Entry(show(image));
        }
        order := order + [image];
      }
      complete := whole + chunk;
      if |whole| == 0 && |chunk| > 0 {
        whole := chunk;
      }
    }

    /**
     * Database.Compile: the five compilers in turn on a fresh image list and count, then the image
     * file text. The five lists are what each compiler writes, before sorting.
     */
    method Compile(env: Env, show: Json -> string)
      returns (passes: seq<Record>, bundles: seq<Record>, loot: seq<Record>, operators: seq<Record>,
               weapons: seq<Record>, whole: string, complete: string, ghost order: seq<Json>)
      requires Sources(env)
      modifies this
      ensures passes == DBBattlePasses.Passes(env.read(DBBattlePasses.PassesFile))
      ensures bundles == DBBundles.Bundles(env, env.read(DBBundles.BundlesFile))
        + DBBundles.Durables(env, env.read(DBBundles.BundlesFile), env.read(DBBundles.DlcFile))
      ensures loot == DBLoot.LootAll(env, [], DBLoot.LootFiles) + DBLoot.WeaponVariants(env, env.read(DBLoot.WeaponsFile))
      ensures operators == DBOperators.Operators(env, env.read(DBOperators.OperatorsFile))
      ensures weapons == DBWeapons.Weapons(env, env.read(DBWeapons.WeaponsFile))
      ensures images == AllImages(env)
      ensures count == |passes| + |bundles| + |loot| + |operators| + |weapons|
      ensures forall x :: x in order <==> x in images
      ensures forall i, j :: 0 <= i < j < |order| ==> order[i] != order[j]
      ensures whole == ImagesFileAsWritten(Shown(show, order))
      ensures complete == ImagesFile(Shown(show, order))
      ensures whole <= complete
    {
      hide DBBattlePasses.Passes, DBBundles.Bundles, DBBundles.Durables, DBLoot.LootAll, DBLoot.WeaponVariants;
      hide DBOperators.Operators, DBWeapons.Weapons, DBBundles.BundleImages, DBBundles.DurablesImages;
      hide DBLoot.FilesImages, DBLoot.WeaponVariantsImages, DBOperators.OperatorsImages, DBWeapons.WeaponsImages;
      images := [];
      count := 0;
      passes := CompileBattlePasses(env);
      bundles := CompileBundles(env);
      loot := CompileLoot(env);
      operators := CompileOperators(env);
      weapons := CompileWeapons(env);
      whole, complete, order := WriteImages(show);
    }

    /** DBBattlePasses.Compile: the named passes, their items stripped; no image and one count each. */
    method CompileBattlePasses(env: Env) returns (db: seq<Record>)
      requires forall p :: p in env.read(DBBattlePasses.PassesFile) ==> DBBattlePasses.PassReadable(p)
      modifies this
      ensures db == DBBattlePasses.Passes(env.read(DBBattlePasses.PassesFile))
      ensures images == old(images) && count == old(count) + |db|
    {
      hide DBBattlePasses.StripItems;
      var passes := env.read(DBBattlePasses.PassesFile);
      db := [];
      for i := 0 to |passes|
        invariant db == DBBattlePasses.Passes(passes[..i])
        invariant images == old(images) && count == old(count) + |db|
      {
        hide DBBattlePasses.Passes;
        DBBattlePasses.PassesStep(passes, i);
        var p := passes[i];
        if IsNull(p, "name") {
          continue;
        }
        var items := DBBattlePasses.StripAll(Get(p, "items").elems);
        db := db + [p["items" := JList(items)]];
        count := count + 1;
      }
      assert passes[..|passes|] == passes;
    }

    /** One store bundle of DBBundles.Compile: its images once listed, and its record once kept. */
    method CompileBundle(env: Env, b: Record) returns (added: seq<Record>)
      requires DBBundles.Readable(env, b)
      modifies this
      ensures added == if DBBundles.Kept(env, b) then [DBBundles.BundleOut(env, b)] else []
      ensures images == old(images) + DBBundles.Images(b)
      ensures count == old(count) + |added|
    {
      hide DBBundles.BundleOut, DBBundles.ItemIds;
      added := [];
      if !DBBundles.Listed(b) {
        return;
      }
      images := images + [Get(b, "billboard"), Get(b, "logo")];
      if !env.fileExists(Get(b, "billboard")) || !env.fileExists(Get(b, "logo")) {
        return;
      }
      var ids := DBBundles.CollectIds(Objects(Get(b, "items")));
      var out := DBBundles.BundleOut(env, b);
      DBBundles.BundleFieldsKept(env, b);
      assert Get(out, "items") == JList(ids);
      added := [out];
      count := count + 1;
    }

    /** One DLC entry of DBBundles.Compile: its image once listed, and its record once kept. */
    method CompileDurable(env: Env, bundles: seq<Record>, e: Record) returns (added: seq<Record>)
      requires DBBundles.DurableReadable(env, e)
      modifies this
      ensures added == if DBBundles.DurableKept(env, e) then [DBBundles.DurableOut(env, bundles, e)] else []
      ensures images == old(images) + DBBundles.DurableImages(e)
      ensures count == old(count) + |added|
    {
      hide DBBundles.DurableOut, DBBundles.ContentIds;
      added := [];
      if !DBBundles.DurableListed(e) {
        return;
      }
      images := images + [Get(e, "image")];
      if !env.fileExists(Get(e, "image")) {
        return;
      }
      var ids := DBBundles.Contents(env, bundles, Objects(Get(e, "items")));
      var out := DBBundles.DurableOut(env, bundles, e);
      DBBundles.DurableCleaned(env, bundles, e);
      assert Get(out, "items") == JList(ids);
      added := [out];
      count := count + 1;
    }

    /** DBBundles.Compile: the kept store bundles, then the kept durable DLC entries. */
    method CompileBundles(env: Env) returns (db: seq<Record>)
      requires forall b :: b in env.read(DBBundles.BundlesFile) ==> DBBundles.Readable(env, b)
      requires forall e :: e in env.read(DBBundles.DlcFile) ==> DBBundles.DurableReadable(env, e)
      modifies this
      ensures var bundles := env.read(DBBundles.BundlesFile);
        var dlc := env.read(DBBundles.DlcFile);
        && db == DBBundles.Bundles(env, bundles) + DBBundles.Durables(env, bundles, dlc)
        && images == old(images) + DBBundles.BundleImages(bundles) + DBBundles.DurablesImages(dlc)
      ensures count == old(count) + |db|
    {
      hide DBBundles.Readable, DBBundles.Kept, DBBundles.BundleOut, DBBundles.Images;
      hide DBBundles.DurableReadable, DBBundles.DurableKept, DBBundles.DurableOut, DBBundles.DurableImages;
      var bundles := env.read(DBBundles.BundlesFile);
      var dlc := env.read(DBBundles.DlcFile);
      db := [];
      for i := 0 to |bundles|
        invariant db == DBBundles.Bundles(env, bundles[..i])
        invariant images == old(images) + DBBundles.BundleImages(bundles[..i])
        invariant count == old(count) + |db|
      {
        hide DBBundles.Bundles, DBBundles.BundleImages;
        DBBundles.BundlesStep(env, bundles, i);
        var added := CompileBundle(env, bundles[i]);
        db := db + added;
      }
      assert bundles[..|bundles|] == bundles;
      ghost var stored := db;
      ghost var before := images;
      for i := 0 to |dlc|
        invariant db == stored + DBBundles.Durables(env, bundles, dlc[..i])
        invariant images == before + DBBundles.DurablesImages(dlc[..i])
        invariant count == old(count) + |db|
      {
        hide DBBundles.Durables, DBBundles.DurablesImages;
        DBBundles.DurablesStep(env, bundles, dlc, i);
        var added := CompileDurable(env, bundles, dlc[i]);
        db := db + added;
      }
      assert dlc[..|dlc|] == dlc;
    }

    /** The item loop of one loot file: a kept item is added unless an equal one is already there. */
    method CompileLootFile(env: Env, file: string, db0: seq<Record>) returns (db: seq<Record>)
      modifies this
      ensures db == DBLoot.LootFile(env, db0, file, env.read(file))
      ensures images == old(images) + DBLoot.FileImages(file, env.read(file))
      ensures count == old(count) + |db| - |db0|
    {
      hide DBLoot.LootOut;
      var items := env.read(file);
      db := db0;
      for i := 0 to |items|
        invariant db == DBLoot.LootFile(env, db0, file, items[..i])
        invariant images == old(images) + DBLoot.FileImages(file, items[..i])
        invariant count == old(count) + |db| - |db0|
      {
        hide DBLoot.LootFile, DBLoot.FileImages;
        DBLoot.LootFileStep(env, db0, file, items, i);
        var item := items[i];
        if !DBLoot.Listed(file, item) {
          continue;
        }
        images := images + [Get(item, "image")];
        if !env.fileExists(Get(item, "image")) {
          continue;
        }
        var out := DBLoot.LootOut(env, item);
        if out in db {
          continue;
        }
        db := db + [out];
        count := count + 1;
      }
      assert items[..|items|] == items;
    }

    /** The variant loop of one weapon in DBLoot.Compile. */
    method CompileVariants(env: Env, w: Record) returns (db: seq<Record>)
      requires DBLoot.WeaponReadable(env, w)
      modifies this
      ensures db == DBLoot.Variants(env, w, Objects(Get(w, "variants")))
      ensures images == old(images) + DBLoot.VariantsImages(Objects(Get(w, "variants")))
      ensures count == old(count) + |db|
    {
      hide DBLoot.VariantOut;
      var vs := Objects(Get(w, "variants"));
      db := [];
      for i := 0 to |vs|
        invariant db == DBLoot.Variants(env, w, vs[..i])
        invariant images == old(images) + DBLoot.VariantsImages(vs[..i])
        invariant count == old(count) + |db|
      {
        hide DBLoot.Variants, DBLoot.VariantsImages;
        DBLoot.VariantsStep(env, w, vs, i);
        var v := vs[i];
        if !DBLoot.VariantListed(v) {
          continue;
        }
        images := images + [Get(v, "image")];
        if !env.fileExists(Get(v, "image")) {
          continue;
        }
        db := db + [DBLoot.VariantOut(env, w, v)];
        count := count + 1;
      }
      assert vs[..|vs|] == vs;
    }

    /** The loot files of DBLoot.Compile, in order, without repeats. */
    method CompileLootFiles(env: Env) returns (db: seq<Record>)
      modifies this
      ensures db == DBLoot.LootAll(env, [], DBLoot.LootFiles)
      ensures images == old(images) + DBLoot.FilesImages(env, DBLoot.LootFiles)
      ensures count == old(count) + |db|
    {
      hide DBLoot.LootFile, DBLoot.FileImages;
      var files := DBLoot.LootFiles;
      db := [];
      for f := 0 to |files|
        invariant db == DBLoot.LootAll(env, [], files[..f])
        invariant images == old(images) + DBLoot.FilesImages(env, files[..f])
        invariant count == old(count) + |db|
      {
        hide DBLoot.LootAll, DBLoot.FilesImages;
        DBLoot.LootAllStep(env, files, f);
        db := CompileLootFile(env, files[f], db);
      }
      assert files[..|files|] == files;
    }

    /** The weapon loop of DBLoot.Compile: the kept variants of every weapon, weapon by weapon. */
    method CompileWeaponVariants(env: Env, weapons: seq<Record>) returns (db: seq<Record>)
      requires forall w :: w in weapons ==> DBLoot.WeaponReadable(env, w)
      modifies this
      ensures db == DBLoot.WeaponVariants(env, weapons)
      ensures images == old(images) + DBLoot.WeaponVariantsImages(weapons)
      ensures count == old(count) + |db|
    {
      hide DBLoot.Variants, DBLoot.VariantsImages, DBLoot.WeaponReadable;
      db := [];
      for i := 0 to |weapons|
        invariant forall w :: w in weapons[..i] ==> IsObjects(Get(w, "variants"))
        invariant db == DBLoot.WeaponVariants(env, weapons[..i])
        invariant images == old(images) + DBLoot.WeaponVariantsImages(weapons[..i])
        invariant count == old(count) + |db|
      {
        hide DBLoot.WeaponVariants, DBLoot.WeaponVariantsImages;
        DBLoot.WeaponVariantsStep(env, weapons, i);
        var variants := CompileVariants(env, weapons[i]);
        db := db + variants;
      }
      assert weapons[..|weapons|] == weapons;
    }

    /** DBLoot.Compile: the loot files without repeats, then the kept variants of every weapon. */
    method CompileLoot(env: Env) returns (db: seq<Record>)
      requires forall w :: w in env.read(DBLoot.WeaponsFile) ==> DBLoot.WeaponReadable(env, w)
      modifies this
      ensures var weapons := env.read(DBLoot.WeaponsFile);
        && db == DBLoot.LootAll(env, [], DBLoot.LootFiles) + DBLoot.WeaponVariants(env, weapons)
        && images == old(images) + DBLoot.FilesImages(env, DBLoot.LootFiles) + DBLoot.WeaponVariantsImages(weapons)
      ensures count == old(count) + |db|
    {
      hide DBLoot.LootAll, DBLoot.FilesImages, DBLoot.WeaponVariants, DBLoot.WeaponVariantsImages, DBLoot.WeaponReadable;
      var items := CompileLootFiles(env);
      var variants := CompileWeaponVariants(env, env.read(DBLoot.WeaponsFile));
      db := items + variants;
    }

    /** One operator of DBOperators.Compile: its images, and its record once it is kept. */
    method CompileOperator(env: Env, op: Record, skins: seq<Record>, executions: seq<Record>, quips: seq<Record>)
      returns (added: seq<Record>)
      requires skins == env.read(DBOperators.SkinsFile) && executions == env.read(DBOperators.ExecutionsFile)
      requires quips == env.read(DBOperators.QuipsFile)
      requires DBOperators.Readable(env, op)
      modifies this
      ensures added == if DBOperators.Kept(env, op) then [DBOperators.Compiled(env, op)] else []
      ensures images == old(images) + DBOperators.OperatorImages(env, op)
      ensures count == old(count) + |added|
    {
      hide DBOperators.OperatorOut, DBOperators.Attachments, DBOperators.ItemImages, DBOperators.ItemsReadable;
      added := [];
      if !DBOperators.Listed(op) {
        return;
      }
      images := images + [Get(op, "image")];
      if !env.fileExists(Get(op, "image")) {
        return;
      }
      var skinIds, skinImages := DBOperators.Attach(env, DBOperators.Skins, op, env.sortList(skins, "name", "rarity"));
      images := images + skinImages;
      var executionIds, executionImages := DBOperators.Attach(env, DBOperators.Executions, op, env.sortList(executions, "name", "rarity"));
      images := images + executionImages;
      var quipIds, quipImages := DBOperators.Attach(env, DBOperators.Quips, op, env.sortList(quips, "name", "rarity"));
      images := images + quipImages;
      assert images == old(images) + ([Get(op, "image")] + skinImages + executionImages + quipImages);
      added := [DBOperators.OperatorOut(env, op, skinIds, executionIds, quipIds)];
      count := count + 1;
    }

    /** DBOperators.Compile: the kept operators, each with the items the rules attach to it. */
    method CompileOperators(env: Env) returns (db: seq<Record>)
      requires forall op :: op in env.read(DBOperators.OperatorsFile) ==> DBOperators.Readable(env, op)
      modifies this
      ensures var ops := env.read(DBOperators.OperatorsFile);
        && db == DBOperators.Operators(env, ops)
        && images == old(images) + DBOperators.OperatorsImages(env, ops)
      ensures count == old(count) + |db|
    {
      hide DBOperators.Readable, DBOperators.Kept, DBOperators.Compiled, DBOperators.OperatorImages;
      var ops := env.read(DBOperators.OperatorsFile);
      var skins := env.read(DBOperators.SkinsFile);
      var executions := env.read(DBOperators.ExecutionsFile);
      var quips := env.read(DBOperators.QuipsFile);
      db := [];
      for i := 0 to |ops|
        invariant db == DBOperators.Operators(env, ops[..i])
        invariant images == old(images) + DBOperators.OperatorsImages(env, ops[..i])
        invariant count == old(count) + |db|
      {
        hide DBOperators.Operators, DBOperators.OperatorsImages;
        DBOperators.OperatorsStep(env, ops, i);
        var added := CompileOperator(env, ops[i], skins, executions, quips);
        db := db + added;
      }
      assert ops[..|ops|] == ops;
    }

    /** DBWeapons.Compile: every listed weapon with its variant ids. */
    method CompileWeapons(env: Env) returns (db: seq<Record>)
      requires forall w :: w in env.read(DBWeapons.WeaponsFile) ==> DBWeapons.Readable(w)
      modifies this
      ensures var ws := env.read(DBWeapons.WeaponsFile);
        && db == DBWeapons.Weapons(env, ws)
        && images == old(images) + DBWeapons.WeaponsImages(ws)
      ensures count == old(count) + |db|
    {
      hide DBWeapons.WeaponOut, DBWeapons.VariantIds;
      var ws := env.read(DBWeapons.WeaponsFile);
      db := [];
      for i := 0 to |ws|
        invariant db == DBWeapons.Weapons(env, ws[..i])
        invariant images == old(images) + DBWeapons.WeaponsImages(ws[..i])
        invariant count == old(count) + |db|
      {
        hide DBWeapons.Weapons, DBWeapons.WeaponsImages;
        DBWeapons.WeaponsStep(env, ws, i);
        var w := ws[i];
        if !DBWeapons.Listed(w) {
          continue;
        }
        images := images + [Get(w, "icon")];
        var ids := DBWeapons.CollectVariantIds(env.sortList(Objects(Get(w, "variants")), "name", "rarity"));
        var out := DBWeapons.WeaponOut(env, w);
        DBWeapons.WeaponTrimmed(env, w);
        assert Get(out, "variants") == JList(ids);
        db := db + [out];
        count := count + 1;
      }
      assert ws[..|ws|] == ws;
    }
  }

  /** What the five compilers need of the files they read for none of their lookups to fail. */
  predicate Sources(env: Env) {
    && (forall p :: p in env.read(DBBattlePasses.PassesFile) ==> DBBattlePasses.PassReadable(p))
    && (forall b :: b in env.read(DBBundles.BundlesFile) ==> DBBundles.Readable(env, b))
    && (forall e :: e in env.read(DBBundles.DlcFile) ==> DBBundles.DurableReadable(env, e))
    && (forall w :: w in env.read(DBLoot.WeaponsFile) ==> DBLoot.WeaponReadable(env, w))
    && (forall op :: op in env.read(DBOperators.OperatorsFile) ==> DBOperators.Readable(env, op))
    && (forall w :: w in env.read(DBWeapons.WeaponsFile) ==> DBWeapons.Readable(w))
  }

  /** Every image the compilers collect, in the order they collect them, repeats included. */
  function AllImages(env: Env): seq<Json>
    requires Sources(env)
  {
    DBBundles.BundleImages(env.read(DBBundles.BundlesFile)) + DBBundles.DurablesImages(env.read(DBBundles.DlcFile))
    + DBLoot.FilesImages(env, DBLoot.LootFiles) + DBLoot.WeaponVariantsImages(env.read(DBLoot.WeaponsFile))
    + DBOperators.OperatorsImages(env, env.read(DBOperators.OperatorsFile))
    + DBWeapons.WeaponsImages(env.read(DBWeapons.WeaponsFile))
  }

  /** The names the images are written under, in order. */
  function Shown(show: Json -> string, order: seq<Json>): (r: seq<string>)
    ensures |r| == |order|
  {
    seq(|order|, k requires 0 <= k < |order| => show(order[k]))
  }
}
