/**
 * DBOperators in ModernWarfare/database.py: the operators whose image exists, each with the ids
 * of the skins, executions and quips that belong to it.
 */
module DBOperators {
  import opened Text
  import opened Json
  import opened Compiler

  const OperatorsFile: string := "operators"
  const SkinsFile: string := "operatorSkins"
  const ExecutionsFile: string := "executions"
  const QuipsFile: string := "operatorQuips"
  /** The operator id of an item that belongs to every operator outside Black Ops Cold War. */
  const AllOperators: int := 29999
  /** The operator id of a skin that belongs to every launch operator outside Black Ops Cold War. */
  const LaunchOperators: int := 29998
  /** The operator id of an execution that belongs to every Black Ops Cold War operator. */
  const ColdWarOperators: int := 29997
  /** The altId prefix of a Black Ops Cold War operator. */
  const ColdWarPrefix: string := "t9"
  /** The keys every kept operator loses, each popped without a default. */
  const Popped: seq<string> := [
    "altId", "type", "rarity", "branchIcon", "thumbprint", "launchOperator", "video", "hidden", "billets"]
  /** The keys a kept operator loses when null, each popped without a default. */
  const Nullable: seq<string> := ["season", "description", "branch"]

  datatype Kind = Skins | Executions | Quips

  /** The key of the list an attachment kind fills. */
  function KindKey(kind: Kind): string {
    match kind
    case Skins => "skins"
    case Executions => "executions"
    case Quips => "quips"
  }

  // ----- Operators -----

  predicate Listed(op: Record) {
    HasAll(op, ["id", "name", "type", "image"])
  }

  predicate Kept(env: Env, op: Record) {
    Listed(op) && env.fileExists(Get(op, "image"))
  }

  /** `operator.get("altId").startswith("t9")`, on a text altId. */
  predicate ColdWar(op: Record)
    requires Get(op, "altId").JStr?
  {
    StartsWith(Get(op, "altId").s, ColdWarPrefix)
  }

  // ----- Attachments -----

  /** A skin, execution or quip is looked at when it has an id, name, image and operator id. */
  predicate ItemListed(item: Record) {
    HasAll(item, ["id", "name", "image", "operatorId"])
  }

  predicate ItemKept(env: Env, item: Record) {
    ItemListed(item) && env.fileExists(Get(item, "image"))
  }

  /** Whether the rule for an operator id other than the operator's own reads the operator's altId. */
  predicate ReadsAltId(kind: Kind, opId: Json) {
    match kind
    case Skins => opId == JInt(AllOperators) || opId == JInt(LaunchOperators)
    case Executions => opId == JInt(AllOperators) || opId == JInt(ColdWarOperators)
    case Quips => opId == JInt(AllOperators)
  }

  /** The operator's altId is text wherever a rule calls `startswith` on it. */
  predicate AltIdReadable(kind: Kind, op: Record, opId: Json) {
    opId != Get(op, "id") && ReadsAltId(kind, opId) ==> Get(op, "altId").JStr?
  }

  /**
   * The attachment rules: an item belongs to its own operator; one marked for all operators
   * belongs to every operator outside Black Ops Cold War; a launch-operator skin to every launch
   * operator outside it; a Cold War execution to every operator of it.
   */
  predicate Attached(kind: Kind, op: Record, opId: Json)
    requires AltIdReadable(kind, op, opId)
  {
    if opId == Get(op, "id") then true
    else if opId == JInt(AllOperators) then !ColdWar(op)
    else match kind
      case Skins => opId == JInt(LaunchOperators) && !ColdWar(op) && Get(op, "launchOperator") == JBool(true)
      case Executions => opId == JInt(ColdWarOperators) && ColdWar(op)
      case Quips => false
  }

  /** Every kept item of the sorted list is one the rules can decide for this operator. */
  predicate ItemsReadable(env: Env, kind: Kind, op: Record, items: seq<Record>) {
    forall j :: 0 <= j < |items| && ItemKept(env, items[j]) ==> AltIdReadable(kind, op, Get(items[j], "operatorId"))
  }

  /** The ids of the kept items attached to the operator, in list order. */
  function Attachments(env: Env, kind: Kind, op: Record, items: seq<Record>): seq<Json>
    requires ItemsReadable(env, kind, op, items)
    decreases |items|
  {
    if items == [] then []
    else
      var prev := Attachments(env, kind, op, items[..|items| - 1]);
      var item := items[|items| - 1];
      if ItemKept(env, item) && Attached(kind, op, Get(item, "operatorId")) then prev + [Get(item, "id")] else prev
  }

  function ItemImages(items: seq<Record>): seq<Json>
    decreases |items|
  {
    if items == [] then []
    else ItemImages(items[..|items| - 1]) + (if ItemListed(items[|items| - 1]) then [Get(items[|items| - 1], "image")] else [])
  }

  /** An id is attached exactly when some kept item with it passes the rules. */
  lemma {:induction false} AttachmentsExactly(env: Env, kind: Kind, op: Record, items: seq<Record>, x: Json)
    requires ItemsReadable(env, kind, op, items)
    ensures x in Attachments(env, kind, op, items) <==>
      exists j :: 0 <= j < |items| && ItemKept(env, items[j]) && Attached(kind, op, Get(items[j], "operatorId")) && Get(items[j], "id") == x
    decreases |items|
  {
    hide Attached, ItemKept;
    if items != [] {
      var init := items[..|items| - 1];
      assert ItemsReadable(env, kind, op, init) by {
        forall j | 0 <= j < |init| && ItemKept(env, init[j])
          ensures AltIdReadable(kind, op, Get(init[j], "operatorId"))
        {
          assert init[j] == items[j];
        }
      }
      AttachmentsExactly(env, kind, op, init, x);
      if exists j :: 0 <= j < |init| && ItemKept(env, init[j]) && Attached(kind, op, Get(init[j], "operatorId")) && Get(init[j], "id") == x {
        var j :| 0 <= j < |init| && ItemKept(env, init[j]) && Attached(kind, op, Get(init[j], "operatorId")) && Get(init[j], "id") == x;
        assert items[j] == init[j];
      }
      if exists j :: 0 <= j < |items| && ItemKept(env, items[j]) && Attached(kind, op, Get(items[j], "operatorId")) && Get(items[j], "id") == x {
        var j :| 0 <= j < |items| && ItemKept(env, items[j]) && Attached(kind, op, Get(items[j], "operatorId")) && Get(items[j], "id") == x;
        if j < |init| {
          assert init[j] == items[j];
        }
      }
    }
  }

  /** An item marked with the operator's own id is attached whatever the operator. */
  lemma OwnItemsAttached(kind: Kind, op: Record)
    ensures AltIdReadable(kind, op, Get(op, "id")) && Attached(kind, op, Get(op, "id"))
  {
  }

  /** A Black Ops Cold War operator gets no item marked for all operators, no launch skin and no quip but its own. */
  lemma ColdWarOperatorRules(kind: Kind, op: Record, opId: Json)
    requires Get(op, "altId").JStr? && ColdWar(op)
    requires opId != Get(op, "id")
    ensures Attached(kind, op, opId) <==> kind == Executions && opId == JInt(ColdWarOperators)
  {
  }

  /**
   * Any other operator gets every item marked for all operators, the launch skins when it is a
   * launch operator, and never a Cold War execution.
   */
  lemma OtherOperatorRules(kind: Kind, op: Record, opId: Json)
    requires Get(op, "altId").JStr? && !ColdWar(op)
    requires opId != Get(op, "id")
    ensures Attached(kind, op, opId) <==>
      opId == JInt(AllOperators) || (kind == Skins && opId == JInt(LaunchOperators) && Get(op, "launchOperator") == JBool(true))
  {
  }

  // ----- The operator record -----

  /** What a kept operator must hold: every popped key, and text altIds where the rules read them. */
  predicate Readable(env: Env, op: Record) {
    Kept(env, op) ==>
      && HasKeys(op, Popped) && HasKeys(op, Nullable)
      && ItemsReadable(env, Skins, op, env.sortList(env.read(SkinsFile), "name", "rarity"))
      && ItemsReadable(env, Executions, op, env.sortList(env.read(ExecutionsFile), "name", "rarity"))
      && ItemsReadable(env, Quips, op, env.sortList(env.read(QuipsFile), "name", "rarity"))
  }

  /** The three lists and the slug set, then the popped keys, the null fields and the default availability gone. */
  function OperatorOut(env: Env, op: Record, skins: seq<Json>, executions: seq<Json>, quips: seq<Json>): Record {
    DropAvailability(DropNulls(Without(WithLists(env, op, skins, executions, quips), Popped), Nullable))
  }

  /** The operator with its three lists and its slug set. */
  function WithLists(env: Env, op: Record, skins: seq<Json>, executions: seq<Json>, quips: seq<Json>): (r: Record)
    ensures Get(r, "skins") == JList(skins) && Get(r, "executions") == JList(executions)
    ensures Get(r, "quips") == JList(quips) && Get(r, "slug") == Slug(env, op)
    ensures forall k :: k != "skins" && k != "executions" && k != "quips" && k != "slug" ==>
      (k in r <==> k in op) && (k in r ==> r[k] == op[k])
  {
    op["skins" := JList(skins)]["executions" := JList(executions)]["quips" := JList(quips)]["slug" := Slug(env, op)]
  }

  /** A kept operator, with the attachments of the three sorted files. */
  function Compiled(env: Env, op: Record): Record
    requires Kept(env, op) && Readable(env, op)
  {
    OperatorOut(env, op,
      Attachments(env, Skins, op, env.sortList(env.read(SkinsFile), "name", "rarity")),
      Attachments(env, Executions, op, env.sortList(env.read(ExecutionsFile), "name", "rarity")),
      Attachments(env, Quips, op, env.sortList(env.read(QuipsFile), "name", "rarity")))
  }

  /** The kept operators, in file order. */
  function Operators(env: Env, ops: seq<Record>): seq<Record>
    requires forall op :: op in ops ==> Readable(env, op)
    decreases |ops|
  {
    if ops == [] then []
    else
      var prev := Operators(env, ops[..|ops| - 1]);
      var op := ops[|ops| - 1];
      if Kept(env, op) then prev + [Compiled(env, op)] else prev
  }

  /**
   * The images one operator adds: its own once it is listed and, once it is kept, those of every
   * listed skin, execution and quip again.
   */
  function OperatorImages(env: Env, op: Record): seq<Json> {
    if !Listed(op) then []
    else if !env.fileExists(Get(op, "image")) then [Get(op, "image")]
    else
      [Get(op, "image")]
      + ItemImages(env.sortList(env.read(SkinsFile), "name", "rarity"))
      + ItemImages(env.sortList(env.read(ExecutionsFile), "name", "rarity"))
      + ItemImages(env.sortList(env.read(QuipsFile), "name", "rarity"))
  }

  function OperatorsImages(env: Env, ops: seq<Record>): seq<Json>
    decreases |ops|
  {
    if ops == [] then [] else OperatorsImages(env, ops[..|ops| - 1]) + OperatorImages(env, ops[|ops| - 1])
  }

  lemma KeysApart()
    ensures forall k :: k in Nullable ==> k !in Popped
    ensures forall k :: k in Popped ==> k != "skins" && k != "executions" && k != "quips" && k != "slug" && k != "available"
    ensures forall k :: k in Nullable ==> k != "skins" && k != "executions" && k != "quips" && k != "slug" && k != "available"
    ensures "skins" !in Popped && "executions" !in Popped && "quips" !in Popped && "slug" !in Popped
    ensures "skins" !in Nullable && "executions" !in Nullable && "quips" !in Nullable && "slug" !in Nullable
  {
  }

  /** A field that is neither popped, optional nor the availability passes through unchanged. */
  lemma OperatorFieldKept(env: Env, op: Record, skins: seq<Json>, executions: seq<Json>, quips: seq<Json>, k: string)
    requires k !in Popped && k !in Nullable && k != "available"
    ensures var attached := WithLists(env, op, skins, executions, quips);
      var out := OperatorOut(env, op, skins, executions, quips);
      (k in out <==> k in attached) && Get(out, k) == Get(attached, k)
  {
    hide DropNulls, Without, DropAvailability, WithLists;
    var attached := WithLists(env, op, skins, executions, quips);
    var w := Without(attached, Popped);
    var n := DropNulls(w, Nullable);
    AvailabilityDropped(n);
    assert k in n <==> k in w;
    assert k in w <==> k in attached;
  }

  /** A kept operator holds its three attachment lists and its slug. */
  lemma OperatorLists(env: Env, op: Record, skins: seq<Json>, executions: seq<Json>, quips: seq<Json>)
    ensures var out := OperatorOut(env, op, skins, executions, quips);
      && Get(out, "skins") == JList(skins)
      && Get(out, "executions") == JList(executions)
      && Get(out, "quips") == JList(quips)
      && Get(out, "slug") == Slug(env, op)
  {
    hide OperatorOut, WithLists;
    KeysApart();
    OperatorFieldKept(env, op, skins, executions, quips, "skins");
    OperatorFieldKept(env, op, skins, executions, quips, "executions");
    OperatorFieldKept(env, op, skins, executions, quips, "quips");
    OperatorFieldKept(env, op, skins, executions, quips, "slug");
  }

  /** A kept operator has lost every popped key. */
  lemma OperatorPopped(env: Env, op: Record, skins: seq<Json>, executions: seq<Json>, quips: seq<Json>)
    ensures forall k :: k in Popped ==> k !in OperatorOut(env, op, skins, executions, quips)
  {
    hide DropNulls, Without, DropAvailability, WithLists;
    KeysApart();
    var n := DropNulls(Without(WithLists(env, op, skins, executions, quips), Popped), Nullable);
    AvailabilityDropped(n);
    forall k | k in Popped
      ensures k !in OperatorOut(env, op, skins, executions, quips)
    {
      assert k !in n;
    }
  }

  /** A kept operator keeps an optional field exactly when it is not null. */
  lemma OperatorNullsDropped(env: Env, op: Record, skins: seq<Json>, executions: seq<Json>, quips: seq<Json>, k: string)
    requires k in Nullable
    ensures k in OperatorOut(env, op, skins, executions, quips) <==> !IsNull(op, k)
  {
    hide DropNulls, Without, DropAvailability, WithLists;
    KeysApart();
    var attached := WithLists(env, op, skins, executions, quips);
    AvailabilityDropped(DropNulls(Without(attached, Popped), Nullable));
    assert k in attached <==> k in op;
    assert k in attached ==> attached[k] == op[k];
  }

  /** The database holds exactly the kept operators. */
  lemma {:induction false} OperatorsExactly(env: Env, ops: seq<Record>, x: Record)
    requires forall op :: op in ops ==> Readable(env, op)
    ensures x in Operators(env, ops) <==> exists j :: 0 <= j < |ops| && Kept(env, ops[j]) && x == Compiled(env, ops[j])
    decreases |ops|
  {
    hide Compiled, Kept, Readable;
    if ops != [] {
      var init := ops[..|ops| - 1];
      OperatorsExactly(env, init, x);
      if exists j :: 0 <= j < |init| && Kept(env, init[j]) && x == Compiled(env, init[j]) {
        var j :| 0 <= j < |init| && Kept(env, init[j]) && x == Compiled(env, init[j]);
        assert ops[j] == init[j];
      }
      if exists j :: 0 <= j < |ops| && Kept(env, ops[j]) && x == Compiled(env, ops[j]) {
        var j :| 0 <= j < |ops| && Kept(env, ops[j]) && x == Compiled(env, ops[j]);
        if j < |init| {
          assert init[j] == ops[j];
        }
      }
    }
  }

  /**
   * One of the three item loops of a kept operator: the image of every listed item, and the id of
   * every kept item the rules attach.
   */
  method Attach(env: Env, kind: Kind, op: Record, items: seq<Record>) returns (ids: seq<Json>, images: seq<Json>)
    requires ItemsReadable(env, kind, op, items)
    ensures ids == Attachments(env, kind, op, items)
    ensures images == ItemImages(items)
  {
    ids := [];
    images := [];
    for i := 0 to |items|
      invariant ItemsReadable(env, kind, op, items[..i])
      invariant ids == Attachments(env, kind, op, items[..i])
      invariant images == ItemImages(items[..i])
    {
      assert items[..i + 1][..i] == items[..i];
      var item := items[i];
      if !ItemListed(item) {
        continue;
      }
      images := images + [Get(item, "image")];
      if !env.fileExists(Get(item, "image")) {
        continue;
      }
      if Attached(kind, op, Get(item, "operatorId")) {
        ids := ids + [Get(item, "id")];
      }
    }
    assert items[..|items|] == items;
  }

  /** One more operator of the file: the list and the images grow by its contribution. */
  lemma OperatorsStep(env: Env, ops: seq<Record>, i: nat)
    requires i < |ops| && forall op :: op in ops ==> Readable(env, op)
    ensures forall op :: op in ops[..i] ==> Readable(env, op)
    ensures Readable(env, ops[i])
    ensures Operators(env, ops[..i + 1]) ==
      Operators(env, ops[..i]) + (if Kept(env, ops[i]) then [Compiled(env, ops[i])] else [])
    ensures OperatorsImages(env, ops[..i + 1]) == OperatorsImages(env, ops[..i]) + OperatorImages(env, ops[i])
  {
    assert ops[..i + 1][..i] == ops[..i];
    assert ops[i] in ops;
  }
}
