/**
 * DBBattlePasses in ModernWarfare/database.py: every named battle pass, with its items stripped
 * of their type and billboard.
 */
module DBBattlePasses {
  import opened Json

  const PassesFile: string := "battlePasses"

  /** An item of a named pass is a dictionary that has both keys the compiler pops. */
  predicate ItemReadable(e: Json) {
    e.JObj? && "type" in e.fields && "billboard" in e.fields
  }

  /** Only a named pass has its items read: they must be a list of such dictionaries. */
  predicate PassReadable(p: Record) {
    !IsNull(p, "name") ==> Get(p, "items").JList? && forall e :: e in Get(p, "items").elems ==> ItemReadable(e)
  }

  function StripItem(e: Json): Json
    requires ItemReadable(e)
  {
    JObj(e.fields - {"type", "billboard"})
  }

  function StripItems(items: seq<Json>): (r: seq<Json>)
    requires forall e :: e in items ==> ItemReadable(e)
    ensures |r| == |items|
  {
    seq(|items|, k requires 0 <= k < |items| => StripItem(items[k]))
  }

  /** A named pass as the database holds it. */
  function PassOut(p: Record): Record
    requires !IsNull(p, "name") && PassReadable(p)
  {
    p["items" := JList(StripItems(Get(p, "items").elems))]
  }

  /** The passes DBBattlePasses.Compile keeps, in file order. */
  function Passes(passes: seq<Record>): seq<Record>
    requires forall p :: p in passes ==> PassReadable(p)
    decreases |passes|
  {
    if passes == [] then []
    else
      var prev := Passes(passes[..|passes| - 1]);
      var p := passes[|passes| - 1];
      if IsNull(p, "name") then prev else prev + [PassOut(p)]
  }

  /** The database holds exactly the named passes, each as PassOut makes it. */
  lemma {:induction false} PassesExactly(passes: seq<Record>, x: Record)
    requires forall p :: p in passes ==> PassReadable(p)
    ensures x in Passes(passes) <==>
      exists j :: 0 <= j < |passes| && !IsNull(passes[j], "name") && x == PassOut(passes[j])
    decreases |passes|
  {
    if passes != [] {
      var init := passes[..|passes| - 1];
      PassesExactly(init, x);
      if exists j :: 0 <= j < |init| && !IsNull(init[j], "name") && x == PassOut(init[j]) {
        var j :| 0 <= j < |init| && !IsNull(init[j], "name") && x == PassOut(init[j]);
        assert passes[j] == init[j];
      }
      if exists j :: 0 <= j < |passes| && !IsNull(passes[j], "name") && x == PassOut(passes[j]) {
        var j :| 0 <= j < |passes| && !IsNull(passes[j], "name") && x == PassOut(passes[j]);
        if j < |init| {
          assert init[j] == passes[j];
        }
      }
    }
  }

  /**
   * A kept pass has the keys it had and the same values except its items, and every item has
   * lost exactly its type and billboard.
   */
  lemma PassCleaned(p: Record)
    requires !IsNull(p, "name") && PassReadable(p)
    ensures var out := PassOut(p);
      && out.Keys == p.Keys
      && (forall k :: k in p && k != "items" ==> out[k] == p[k])
      && |Get(out, "items").elems| == |Get(p, "items").elems|
      && forall j :: 0 <= j < |Get(out, "items").elems| ==>
           var e := Get(out, "items").elems[j];
           var f := Get(p, "items").elems[j];
           e.JObj? && f.JObj? && "type" !in e.fields && "billboard" !in e.fields
           && forall k :: k != "type" && k != "billboard" ==>
                (k in e.fields <==> k in f.fields) && (k in e.fields ==> e.fields[k] == f.fields[k])
  {
    var items := Get(p, "items").elems;
    assert Get(PassOut(p), "items").elems == StripItems(items);
    forall j | 0 <= j < |items|
      ensures ItemReadable(items[j])
    {
      assert items[j] in items;
    }
  }

  /** The item loop of a named pass: each item loses its type and billboard, in order. */
  method StripAll(items: seq<Json>) returns (stripped: seq<Json>)
    requires forall e :: e in items ==> ItemReadable(e)
    ensures stripped == StripItems(items)
  {
    stripped := [];
    for i := 0 to |items|
      invariant |stripped| == i
      invariant forall k :: 0 <= k < i ==> stripped[k] == StripItem(items[k])
    {
      assert items[i] in items;
      stripped := stripped + [StripItem(items[i])];
    }
  }

  /** One more pass of the file: Passes grows by that pass's contribution. */
  lemma PassesStep(passes: seq<Record>, i: nat)
    requires i < |passes| && forall p :: p in passes ==> PassReadable(p)
    ensures forall p :: p in passes[..i] ==> PassReadable(p)
    ensures PassReadable(passes[i])
    ensures Passes(passes[..i + 1]) ==
      Passes(passes[..i]) + (if IsNull(passes[i], "name") then [] else [PassOut(passes[i])])
  {
    assert passes[..i + 1][..i] == passes[..i];
    assert passes[i] in passes;
  }
}
