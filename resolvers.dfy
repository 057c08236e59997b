/**
 * The shared resolvers of the Modern Warfare compiler: the localization map with its
 * placeholder filter, and the loot type, rarity, season, operator, category, attribute,
 * game-type, platform and title-availability lookups that every entity compiler calls.
 * All tables are read-only sequences gathered into one resolution context.
 */
module Resolvers {
  import opened Wrappers
  import opened Text

  /** Localization key to display text; None is a key whose text was filtered out or is empty. */
  type Localization = map<string, Option<string>>

  /** `localize.get(key)`: a missing key reads as None. */
  function Lookup(loc: Localization, key: string): (r: Option<string>)
    ensures key !in loc ==> r.None?
  {
    if key in loc then loc[key] else None
  }

  /** `localize.get(entry.get(column))`: an empty cell reads as None. */
  function Localized(loc: Localization, key: Option<string>): (r: Option<string>)
    ensures key.None? ==> r.None?
    ensures key.Some? ==> r == Lookup(loc, key.value)
  {
    match key
    case None => None
    case Some(k) => Lookup(loc, k)
  }

  /** The placeholder that compiled descriptions fill with an amount. */
  const Template: string := "&&1"

  /** Python's `bool(...)` of an integer cell that may be empty. */
  predicate Truthy(cell: Option<int>) {
    cell.Some? && cell.value != 0
  }

  /** The image name the tables use for "no image". */
  const ImagePlaceholder: string := "placeholder_x"

  /** An image name, or None for the placeholder. */
  function ImageOrNone(image: Option<string>): (r: Option<string>)
    ensures r.None? <==> image.None? || image == Some(ImagePlaceholder)
    ensures r.Some? ==> r == image
  {
    if image == Some(ImagePlaceholder) then None else image
  }

  /** `after` is `before` with `added` more records appended behind it. */
  predicate Extends<T(==)>(before: seq<T>, after: seq<T>, added: nat) {
    |after| == |before| + added && after[..|before|] == before
  }

  /** Overwriting the record just appended is the same as appending the new one. */
  lemma ReplaceLast<T>(s: seq<T>, appended: T, replacement: T)
    ensures (s + [appended])[|s| := replacement] == s + [replacement]
  {
  }

  /** One row of loot/loot_master.csv, reduced to the columns the resolver reads. */
  datatype LootRange = LootRange(rangeStart: int, rangeEnd: int, typeNameLoc: string)

  /** One row of mp/itemsourcetable.csv; the `equippable*` flags are held as their truthiness. */
  datatype ItemSource = ItemSource(
    marketPlaceID: int,
    refType: string,
    equippableIW8MP: bool,
    equippableWZ: bool,
    equippableT9: bool)

  /** One row of loot/operator_ids.csv. */
  datatype OperatorIdRow = OperatorIdRow(id: Option<int>, ref: string)

  /** A row of weaponClassTable.csv, attachmentcategorytable.csv or camocategorytable.csv. */
  datatype CategoryRow = CategoryRow(ref: string, name: string)

  /** Everything loaded once before the entity compilers run. */
  datatype Context = Context(
    localize: Localization,
    lootTypes: seq<LootRange>,
    itemSources: seq<ItemSource>,
    operatorIds: seq<OperatorIdRow>,
    weaponClasses: seq<CategoryRow>,
    attachCategories: seq<CategoryRow>,
    camoCategories: seq<CategoryRow>)

  // ----- Localization -----

  /** The rule lists of placeholders.json. */
  datatype Placeholders = Placeholders(whole: seq<string>, begins: seq<string>, ends: seq<string>)

  datatype RuleKind = Whole | Begins | Ends

  /** One placeholder rule, compared case-insensitively. */
  predicate RuleMatches(kind: RuleKind, value: string, rule: string) {
    match kind
    case Whole => Lower(value) == Lower(rule)
    case Begins => StartsWith(Lower(value), Lower(rule))
    case Ends => EndsWith(Lower(value), Lower(rule))
  }

  predicate AnyRuleMatches(kind: RuleKind, value: string, rules: seq<string>) {
    exists i :: 0 <= i < |rules| && RuleMatches(kind, value, rules[i])
  }

  predicate IsPlaceholder(rules: Placeholders, value: string) {
    AnyRuleMatches(Whole, value, rules.whole)
    || AnyRuleMatches(Begins, value, rules.begins)
    || AnyRuleMatches(Ends, value, rules.ends)
  }

  /** What one raw localization value becomes once loading is done. */
  function Filtered(rules: Placeholders, stripColor: string -> string, stripButton: string -> string, raw: Option<string>): Option<string> {
    match raw
    case None => None
    case Some(v) => if IsPlaceholder(rules, v) then None else Some(stripButton(stripColor(v)))
  }

  /** One `for placeholder in ...: if ...: break` scan of a rule list. */
  method MatchesAny(kind: RuleKind, value: string, rules: seq<string>) returns (found: bool)
    ensures found <==> AnyRuleMatches(kind, value, rules)
  {
    found := false;
    var i := 0;
    while i < |rules|
      invariant 0 <= i <= |rules|
      invariant !found
      invariant forall j :: 0 <= j < i ==> !RuleMatches(kind, value, rules[j])
    {
      if RuleMatches(kind, value, rules[i]) {
        found := true;
        break;
      }
      i := i + 1;
    }
  }

  /**
   * LoadLocalize: every value matching a placeholder rule becomes None, and every surviving
   * value is colour-stripped, then button-stripped. `stripColor` and `stripButton` stand for
   * the unseen Utility.StripColorCodes and Utility.StripButtonCodes.
   */
  method LoadLocalize(raw: Localization, rules: Placeholders, stripColor: string -> string, stripButton: string -> string)
    returns (localize: Localization)
    ensures localize.Keys == raw.Keys
    ensures forall key :: key in raw ==> localize[key] == Filtered(rules, stripColor, stripButton, raw[key])
  {
    localize := raw;
    var pending := raw.Keys;
    while pending != {}
      invariant pending <= raw.Keys
      invariant localize.Keys == raw.Keys
      invariant forall key :: key in pending ==> localize[key] == raw[key]
      invariant forall key :: key in raw && key !in pending ==> localize[key] == Filtered(rules, stripColor, stripButton, raw[key])
      decreases pending
    {
      var key :| key in pending;
      var value := localize[key];
      if value.Some? {
        var whole := MatchesAny(Whole, value.value, rules.whole);
        if whole {
          localize := localize[key := None];
        }
        var begins := MatchesAny(Begins, value.value, rules.begins);
        if begins {
          localize := localize[key := None];
        }
        var ends := MatchesAny(Ends, value.value, rules.ends);
        if ends {
          localize := localize[key := None];
        }
        var current := localize[key];
        if current.Some? {
          var cleaned := stripColor(current.value);
          cleaned := stripButton(cleaned);
          localize := localize[key := Some(cleaned)];
        }
      }
      pending := pending - {key};
    }
  }

  /**
   * A whole-value rule matches a value exactly when the two agree after lower-casing, so a value
   * of another length never matches it.
   */
  lemma PlaceholderWholeMatch(r: string, v: string)
    ensures IsPlaceholder(Placeholders([r], [], []), v) <==> Lower(v) == Lower(r)
    ensures |v| != |r| ==> !IsPlaceholder(Placeholders([r], [], []), v)
  {
    if Lower(v) == Lower(r) {
      assert RuleMatches(Whole, v, [r][0]);
    }
  }

  /** A value that merely contains a whole-value rule, with more text around it, is kept. */
  lemma PlaceholderNotInside(r: string, a: string, b: string)
    requires a + b != []
    ensures !IsPlaceholder(Placeholders([r], [], []), a + r + b)
  {
    PlaceholderWholeMatch(r, a + r + b);
  }

  // ----- Rarity -----

  const QualityPrefix: string := "LOOT_MP/QUALITY_"

  /** The localization key of a quality value, `LOOT_MP/QUALITY_<value>`. */
  function RarityKey(value: Option<int>): (key: string)
    ensures StartsWith(key, QualityPrefix)
  {
    QualityPrefix + Str(value)
  }

  /** GetLootRarity: the localization of the quality's key. */
  function GetLootRarity(ctx: Context, value: Option<int>): (r: Option<string>)
    ensures RarityKey(value) !in ctx.localize ==> r.None?
    ensures RarityKey(value) in ctx.localize ==> r == ctx.localize[RarityKey(value)]
  {
    Lookup(ctx.localize, RarityKey(value))
  }

  /** Distinct non-negative qualities read distinct keys, and a missing quality reads neither. */
  lemma RarityKeysDistinct(a: nat, b: nat)
    requires a != b
    ensures RarityKey(Some(a)) != RarityKey(Some(b))
    ensures RarityKey(None) != RarityKey(Some(a))
  {
    var ka, kb := RarityKey(Some(a)), RarityKey(Some(b));
    assert ka[|QualityPrefix|..] == Str(Some(a));
    assert kb[|QualityPrefix|..] == Str(Some(b));
    assert RarityKey(None)[|QualityPrefix|..] == Str(None);
  }

  // ----- Loot type -----

  const PlaceholderTypeKey: string := "LOOT_MP/PLACEHOLDER"

  predicate InRange(r: LootRange, id: int) {
    r.rangeStart <= id <= r.rangeEnd
  }

  /** How the scan of loot_master ends: a label key, the placeholder `break`, or no containing range. */
  datatype RangeOutcome = RangeHit(key: string) | RangeStop | RangeMiss

  function ScanRanges(ranges: seq<LootRange>, id: int): RangeOutcome
    decreases |ranges|
  {
    if ranges == [] then RangeMiss
    else if InRange(ranges[0], id) then
      if ranges[0].typeNameLoc == PlaceholderTypeKey then RangeStop else RangeHit(ranges[0].typeNameLoc)
    else ScanRanges(ranges[1..], id)
  }

  /** The fixed refType-to-key table of the item-source fallback; "placeholder" is handled apart. */
  function RefTypeKeys(): map<string, string> {
    map[
    "weapon" := "LOOT_MP/ITEM_TYPE_WEAPON",
    "operator" := "LOOT_MP/OPERATOR",
    "operator_skin" := "LOOT_MP/OPERATOR_SKIN",
    "executions" := "LOOT_MP/OPERATOR_EXECUTION",
    "equipment" := "LOOT_MP/EQUIPMENT",
    "accessory" := "LOOT_MP/WATCH",
    "playercards" := "LOOT_MP/CALLING_CARD",
    "weapon_charm" := "LOOT_MP/CHARM",
    "quip" := "LOOT_MP/OPERATOR_QUIP",
    "camo" := "LOOT_MP/CAMO",
    "emblems" := "LOOT_MP/EMBLEM",
    "attachment" := "LOOT_MP/ATTACHMENT",
    "sticker" := "LOOT_MP/STICKER",
    "xp_token" := "LOOT_MP/CONSUMABLE",
    "markeritem" := "LOOT_MP/CONSUMABLE",
    "reticle" := "LOOT_MP/RETICLE",
    "blueprint" := "LOOT_MP/ITEM_TYPE_WEAPON",
    "battlepass" := "LOOT_MP/BATTLE_PASS",
    "vehicle_track" := "LOOT_MP/VEHICLE_TRACK",
    "vehicle_horn" := "LOOT_MP/VEHICLE_HORN",
    "feature" := "LOOT_MP/FEATURE",
    "weapon_attachment" := "LOOT_MP/ATTACHMENT",
    "perk" := "LOOT_MP/PERK",
    "t9_equipment" := "LOOT_MP/EQUIPMENT",
    "killstreak" := "LOOT_MP/STREAK",
    "class" := "LOOT_MP/FEATURE",
    "zm_unlockable" := "LOOT_MP/FEATURE",
    "weapon_skill" := "LOOT_MP/FEATURE",
    "bonuscard" := "LOOT_MP/FEATURE",
    "vehicleskin" := "LOOT_MP/VEHICLE_SKIN",
    "bundle" := "MENU/BUNDLE_TYPE_VARIETY"
  ]
  }

  /** A source row that ends the item-source scan: its id matches and its refType is known or "placeholder". */
  predicate Decisive(s: ItemSource, id: int) {
    s.marketPlaceID == id && (s.refType in RefTypeKeys() || s.refType == "placeholder")
  }

  /** The item-source scan; a matching row with an unknown refType is passed over (the source logs a warning). */
  function ScanSources(loc: Localization, sources: seq<ItemSource>, id: int): Option<string>
    decreases |sources|
  {
    if sources == [] then None
    else if Decisive(sources[0], id) then
      if sources[0].refType == "placeholder" then None else Lookup(loc, RefTypeKeys()[sources[0].refType])
    else ScanSources(loc, sources[1..], id)
  }

  /**
   * GetLootType: the first loot_master range containing the id decides, unless its key is the
   * placeholder key, which ends the range scan only; then the item-source table is scanned.
   */
  function GetLootType(ctx: Context, id: Option<int>): (r: Option<string>)
    ensures id.None? ==> r.None?
  {
    match id
    case None => None
    case Some(i) =>
      match ScanRanges(ctx.lootTypes, i)
      case RangeHit(key) => Lookup(ctx.localize, key)
      case _ => ScanSources(ctx.localize, ctx.itemSources, i)
  }

  /** The first range containing `id` decides the outcome of the range scan. */
  lemma {:induction false} ScanRangesFirst(ranges: seq<LootRange>, id: int, i: nat)
    requires i < |ranges| && InRange(ranges[i], id)
    requires forall j :: 0 <= j < i ==> !InRange(ranges[j], id)
    ensures ScanRanges(ranges, id)
      == if ranges[i].typeNameLoc == PlaceholderTypeKey then RangeStop else RangeHit(ranges[i].typeNameLoc)
    decreases i
  {
    if i > 0 {
      assert !InRange(ranges[0], id);
      ScanRangesFirst(ranges[1..], id, i - 1);
    }
  }

  /** The range scan misses exactly when no range contains the id. */
  lemma {:induction false} ScanRangesMiss(ranges: seq<LootRange>, id: int)
    ensures ScanRanges(ranges, id) == RangeMiss <==> forall j :: 0 <= j < |ranges| ==> !InRange(ranges[j], id)
    decreases |ranges|
  {
    if ranges != [] {
      ScanRangesMiss(ranges[1..], id);
      if !InRange(ranges[0], id) {
        assert forall j :: 1 <= j < |ranges| ==> ranges[j] == ranges[1..][j - 1];
      }
    }
  }

  /** The first decisive source row decides the fallback. */
  lemma {:induction false} ScanSourcesFirst(loc: Localization, sources: seq<ItemSource>, id: int, i: nat)
    requires i < |sources| && Decisive(sources[i], id)
    requires forall j :: 0 <= j < i ==> !Decisive(sources[j], id)
    ensures ScanSources(loc, sources, id)
      == if sources[i].refType == "placeholder" then None else Lookup(loc, RefTypeKeys()[sources[i].refType])
    decreases i
  {
    if i > 0 {
      assert !Decisive(sources[0], id);
      ScanSourcesFirst(loc, sources[1..], id, i - 1);
    }
  }

  /** Without a decisive source row the fallback gives None, whatever unknown refTypes match. */
  lemma {:induction false} ScanSourcesNone(loc: Localization, sources: seq<ItemSource>, id: int)
    requires forall j :: 0 <= j < |sources| ==> !Decisive(sources[j], id)
    ensures ScanSources(loc, sources, id) == None
    decreases |sources|
  {
    if sources != [] {
      ScanSourcesNone(loc, sources[1..], id);
    }
  }

  /** The first containing range with a real key decides, whatever later ranges and the item sources say. */
  lemma RangeDecides(ctx: Context, id: int, i: nat)
    requires i < |ctx.lootTypes| && InRange(ctx.lootTypes[i], id)
    requires forall j :: 0 <= j < i ==> !InRange(ctx.lootTypes[j], id)
    requires ctx.lootTypes[i].typeNameLoc != PlaceholderTypeKey
    ensures GetLootType(ctx, Some(id)) == Lookup(ctx.localize, ctx.lootTypes[i].typeNameLoc)
  {
    ScanRangesFirst(ctx.lootTypes, id, i);
  }

  /** A placeholder range ends only the range scan: the item-source fallback still runs. */
  lemma PlaceholderFallsThrough(ctx: Context, id: int, i: nat)
    requires i < |ctx.lootTypes| && InRange(ctx.lootTypes[i], id)
    requires forall j :: 0 <= j < i ==> !InRange(ctx.lootTypes[j], id)
    requires ctx.lootTypes[i].typeNameLoc == PlaceholderTypeKey
    ensures GetLootType(ctx, Some(id)) == ScanSources(ctx.localize, ctx.itemSources, id)
  {
    ScanRangesFirst(ctx.lootTypes, id, i);
  }

  /** An id outside every range and without a decisive source row has no type. */
  lemma UnknownIdHasNoType(ctx: Context, id: int)
    requires forall j :: 0 <= j < |ctx.lootTypes| ==> !InRange(ctx.lootTypes[j], id)
    requires forall j :: 0 <= j < |ctx.itemSources| ==> !Decisive(ctx.itemSources[j], id)
    ensures GetLootType(ctx, Some(id)) == None
  {
    ScanRangesMiss(ctx.lootTypes, id);
    ScanSourcesNone(ctx.localize, ctx.itemSources, id);
  }

  /** Range [1,100] with KEY_A and a "weapon" source row for 50: id 50 resolves through the range. */
  lemma RangeBeatsItemSource(loc: Localization, rest: seq<LootRange>)
    ensures GetLootType(
      Context(loc, [LootRange(1, 100, "KEY_A")] + rest, [ItemSource(50, "weapon", true, true, false)], [], [], [], []),
      Some(50)) == Lookup(loc, "KEY_A")
  {
    var ctx := Context(loc, [LootRange(1, 100, "KEY_A")] + rest, [ItemSource(50, "weapon", true, true, false)], [], [], [], []);
    RangeDecides(ctx, 50, 0);
  }

  // ----- Season -----

  /** GetLootSeason: 0 is no season, 99 is "Unreleased", and codes 1000n, 1000n+1, 1000n+2 are season n. */
  function GetLootSeason(ctx: Context, license: int): (r: Option<string>)
    ensures license == 0 ==> r.None?
    ensures license == 99 ==> r == Some("Unreleased")
  {
    if license == 0 then None
    else if license == 99 then Some("Unreleased")
    else
      var adjusted :=
        if (license - 1) % 1000 == 0 then license - 1
        else if (license - 2) % 1000 == 0 then license - 2
        else license;
      if adjusted % 1000 != 0 then None
      else Lookup(ctx.localize, "SEASONS/SEASON_" + IntToString(adjusted / 1000))
  }

  /** The season key of season `n`. */
  function SeasonKey(n: int): string {
    "SEASONS/SEASON_" + IntToString(n)
  }

  /** 1000n, its Reloaded offset 1000n+1 and its extension offset 1000n+2 all name season n. */
  lemma SeasonOffsets(ctx: Context, n: int, k: int)
    requires 0 <= k <= 2 && (n != 0 || k != 0)
    ensures GetLootSeason(ctx, 1000 * n + k) == Lookup(ctx.localize, SeasonKey(n))
  {
    var l := 1000 * n + k;
    assert l != 0 && l != 99;
    assert (l - k) / 1000 == n;
    if k == 0 {
      assert (l - 1) % 1000 == 999;
      assert (l - 2) % 1000 == 998;
      assert l % 1000 == 0;
    } else if k == 1 {
      assert (l - 1) % 1000 == 0;
    } else {
      assert (l - 1) % 1000 == 1;
      assert (l - 2) % 1000 == 0;
    }
  }

  /** Any code other than 0, 99 and 1000n+{0,1,2} has no season. */
  lemma SeasonOtherwiseNone(ctx: Context, license: int)
    requires license != 99 && license % 1000 > 2
    ensures GetLootSeason(ctx, license) == None
  {
    hide Lookup, IntToString;
    NoSeasonOffset(license);
  }

  /** A code more than 2 above a multiple of 1000 is not within 2 above one. */
  lemma NoSeasonOffset(license: int)
    requires license % 1000 > 2
    ensures (license - 1) % 1000 != 0 && (license - 2) % 1000 != 0 && license % 1000 != 0
  {
    assert (license - 1) % 1000 == license % 1000 - 1;
    assert (license - 2) % 1000 == license % 1000 - 2;
  }

  /** A season is reported only for 99 and for non-zero codes within 2 above a multiple of 1000. */
  lemma SeasonOnlyForSeasonCodes(ctx: Context, license: int)
    requires GetLootSeason(ctx, license).Some?
    ensures license == 99 || (license != 0 && license % 1000 <= 2)
  {
    if license != 99 && license % 1000 > 2 {
      SeasonOtherwiseNone(ctx, license);
    }
  }

  /** 4000, 4001 and 4002 agree; 4003 has no season; 6000 and 6001 are SEASONS/SEASON_6. */
  lemma SeasonExamples(ctx: Context)
    ensures GetLootSeason(ctx, 4000) == GetLootSeason(ctx, 4001) == GetLootSeason(ctx, 4002)
    ensures GetLootSeason(ctx, 4003) == None
    ensures GetLootSeason(ctx, 6000) == GetLootSeason(ctx, 6001) == Lookup(ctx.localize, "SEASONS/SEASON_6")
  {
    SeasonOffsets(ctx, 4, 0);
    SeasonOffsets(ctx, 4, 1);
    SeasonOffsets(ctx, 4, 2);
    SeasonOtherwiseNone(ctx, 4003);
    assert IntToString(6) == "6" by {
      assert DigitChar(6) == '6';
    }
    assert SeasonKey(6) == "SEASONS/SEASON_6";
    SeasonOffsets(ctx, 6, 0);
    SeasonOffsets(ctx, 6, 1);
  }

  // ----- Operator ids and reference tables -----

  function FirstOperatorId(rows: seq<OperatorIdRow>, reference: string): Option<int>
    decreases |rows|
  {
    if rows == [] then None
    else if rows[0].ref == reference then rows[0].id
    else FirstOperatorId(rows[1..], reference)
  }

  /** GetOperatorID: three sentinel references get fixed ids before operator_ids.csv is consulted. */
  function GetOperatorID(ctx: Context, reference: string): (r: Option<int>)
    ensures reference == "universal_ref" ==> r == Some(29999)
    ensures reference == "universal_base_ref" ==> r == Some(29998)
    ensures reference == "t9_exclusive_ref" ==> r == Some(29997)
  {
    if reference == "universal_ref" then Some(29999)
    else if reference == "universal_base_ref" then Some(29998)
    else if reference == "t9_exclusive_ref" then Some(29997)
    else FirstOperatorId(ctx.operatorIds, reference)
  }

  /** A non-sentinel reference gets the id of its first row in operator_ids.csv, and None when no row has it. */
  lemma {:induction false} OperatorIdFirstMatch(rows: seq<OperatorIdRow>, reference: string)
    ensures (forall j :: 0 <= j < |rows| ==> rows[j].ref != reference) ==> FirstOperatorId(rows, reference) == None
    ensures forall i :: (0 <= i < |rows| && rows[i].ref == reference && (forall j :: 0 <= j < i ==> rows[j].ref != reference))
                ==> (FirstOperatorId(rows, reference) == rows[i].id)
    decreases |rows|
  {
    if rows != [] {
      OperatorIdFirstMatch(rows[1..], reference);
      forall i | 0 < i < |rows| && rows[i].ref == reference && (forall j :: 0 <= j < i ==> rows[j].ref != reference)
        ensures FirstOperatorId(rows, reference) == rows[i].id
      {
        assert rows[0].ref != reference;
        assert rows[1..][i - 1] == rows[i];
      }
    }
  }

  /** The name key of the first row whose ref matches. */
  function FirstCategoryName(rows: seq<CategoryRow>, reference: string): Option<string>
    decreases |rows|
  {
    if rows == [] then None
    else if rows[0].ref == reference then Some(rows[0].name)
    else FirstCategoryName(rows[1..], reference)
  }

  lemma {:induction false} CategoryFirstMatch(rows: seq<CategoryRow>, reference: string)
    ensures (forall j :: 0 <= j < |rows| ==> rows[j].ref != reference) <==> FirstCategoryName(rows, reference) == None
    ensures forall i :: (0 <= i < |rows| && rows[i].ref == reference && (forall j :: 0 <= j < i ==> rows[j].ref != reference))
                ==> (FirstCategoryName(rows, reference) == Some(rows[i].name))
    decreases |rows|
  {
    if rows != [] {
      CategoryFirstMatch(rows[1..], reference);
      forall i | 0 < i < |rows| && rows[i].ref == reference && (forall j :: 0 <= j < i ==> rows[j].ref != reference)
        ensures FirstCategoryName(rows, reference) == Some(rows[i].name)
      {
        assert rows[0].ref != reference;
        assert rows[1..][i - 1] == rows[i];
      }
      if rows[0].ref != reference {
        assert forall j :: 1 <= j < |rows| ==> rows[j] == rows[1..][j - 1];
      }
    }
  }

  /** The localization of the first category row's name; None when no row matches. */
  function CategoryName(loc: Localization, rows: seq<CategoryRow>, reference: string): Option<string> {
    match FirstCategoryName(rows, reference)
    case None => None
    case Some(name) => Lookup(loc, name)
  }

  /** GetWeaponClass. */
  function GetWeaponClass(ctx: Context, reference: string): Option<string> {
    CategoryName(ctx.localize, ctx.weaponClasses, reference)
  }

  /** GetAttachmentCategory. */
  function GetAttachmentCategory(ctx: Context, reference: string): Option<string> {
    CategoryName(ctx.localize, ctx.attachCategories, reference)
  }

  /** GetCamoCategory. */
  function GetCamoCategory(ctx: Context, reference: string): Option<string> {
    CategoryName(ctx.localize, ctx.camoCategories, reference)
  }

  /** The three category resolvers return the localized name of the first row with the reference, else None. */
  lemma CategoryResolvers(ctx: Context, reference: string, i: nat)
    requires i < |ctx.weaponClasses| && ctx.weaponClasses[i].ref == reference
    requires forall j :: 0 <= j < i ==> ctx.weaponClasses[j].ref != reference
    requires forall j :: 0 <= j < |ctx.camoCategories| ==> ctx.camoCategories[j].ref != reference
    ensures GetWeaponClass(ctx, reference) == Lookup(ctx.localize, ctx.weaponClasses[i].name)
    ensures GetCamoCategory(ctx, reference) == None
  {
    CategoryFirstMatch(ctx.weaponClasses, reference);
    CategoryFirstMatch(ctx.camoCategories, reference);
  }

  // ----- Fixed tables -----

  const AttributeKeys: map<string, string> := map[
    "red" := "WEAPON/TRACER_RED",
    "blue" := "WEAPON/TRACER_BLUE",
    "pink" := "WEAPON/TRACER_PINK",
    "green" := "WEAPON/TRACER_GREEN",
    "purple" := "WEAPON/TRACER_PURPLE",
    "freedom" := "WEAPON/TRACER_FREEDOM",
    "shadow" := "WEAPON/TRACER_SHADOW",
    "gold" := "WEAPON/TRACER_GOLD",
    "morte" := "WEAPON/TRACER_MORTE",
    "tesla" := "WEAPON/TRACER_TESLA",
    "sixteenBit" := "WEAPON/TRACER_16BIT",
    "dark" := "WEAPON/TRACER_DARK",
    "light" := "WEAPON/TRACER_LIGHT",
    "orange" := "WEAPON/TRACER_ORANGE",
    "yellow" := "WEAPON/TRACER_YELLOW",
    "soul" := "WEAPON/TRACER_SOUL",
    "purpleGreen" := "WEAPON/TRACER_PURPLE_GREEN",
    "standardDis" := "WEAPON/DISMEMBERMENT",
    "cryoDis" := "WEAPON/CRYO_DISMEMBERMENT",
    "goldDis" := "WEAPON/DISMEMBERMENT_GOLD",
    "electricDis" := "WEAPON/DISMEMBERMENT_ELECTRIC",
    "tailLightTracerRed" := "VEHICLES/ATTRIBUTE_TAIL_LIGHT_TRACER_RED",
    "flightTrailStandard" := "VEHICLES/ATTRIBUTE_FLIGHT_TRAIL_STANDARD",
    "flightTrailShadow" := "VEHICLES/ATTRIBUTE_FLIGHT_TRAIL_SHADOW",
    "tireTrailFlame" := "VEHICLES/ATTRIBUTE_TIRE_TRAIL_FLAME",
    "smoke" := "VEHICLES/ATTRIBUTE_SMOKE",
    "tireTrailTesla" := "VEHICLES/ATTRIBUTE_TIRE_TRAIL_TESLA",
    "crimsonGold" := "WEAPON/TRACER_CRIMSON_GOLD",
    "emerald" := "WEAPON/TRACER_EMERALD",
    "amethyst" := "WEAPON/TRACER_AMETHYST",
    "cherryBlossom" := "WEAPON/TRACER_CHERRY_BLOSSOM",
    "ice" := "WEAPON/TRACER_ICE",
    "rainbow" := "WEAPON/TRACER_RAINBOW",
    "black" := "WEAPON/TRACER_BLACK",
    "crimsonRonin" := "WEAPON/TRACER_CRIMSON_RONIN",
    "acid" := "WEAPON/TRACER_ACID",
    "tailLightTracerAkira" := "VEHICLES/ATTRIBUTE_TAIL_LIGHT_TRACER_AKIRA",
    "flightTrailRainbow" := "VEHICLES/ATTRIBUTE_FLIGHT_TRAIL_RAINBOW"
  ]

  const GameTypeCategoryKeys: map<string, string> := map[
    "PrivateTournament" := "LUA_MENU/TOURNAMENT",
    "Plunder" := "LUA_MENU/GAMEMODE_PLUNDER",
    "BattleRoyale" := "LUA_MENU/GAMEMODE_BATTLE_ROYALE",
    "WarzoneAlternate" := "LUA_MENU/GAMEMODE_WARZONE_ALTERNATE",
    "MyModes" := "LUA_MENU/MY_MODES",
    "Cwl" := "LUA_MENU/CWL_MODES",
    "Standard" := "LUA_MENU/STANDARD_MODES",
    "Alternate" := "LUA_MENU/ALTERNATE_MODES"
  ]

  /** `localize.get(table.get(reference))`: an unknown reference gives None. */
  function FixedLookup(loc: Localization, table: map<string, string>, reference: string): (r: Option<string>)
    ensures reference !in table ==> r.None?
    ensures reference in table ==> r == Lookup(loc, table[reference])
  {
    if reference in table then Lookup(loc, table[reference]) else None
  }

  /** GetAttribute. */
  function GetAttribute(ctx: Context, reference: string): (r: Option<string>)
    ensures r.Some? ==> reference in AttributeKeys
  {
    FixedLookup(ctx.localize, AttributeKeys, reference)
  }

  /** GetGameTypeCategory. */
  function GetGameTypeCategory(ctx: Context, reference: string): (r: Option<string>)
    ensures r.Some? ==> reference in GameTypeCategoryKeys
  {
    FixedLookup(ctx.localize, GameTypeCategoryKeys, reference)
  }

  /** The 16-bit tracer is the one attribute whose key does not follow its reference's spelling. */
  lemma SixteenBitAttribute(ctx: Context)
    ensures GetAttribute(ctx, "sixteenBit") == Lookup(ctx.localize, "WEAPON/TRACER_16BIT")
    ensures GetAttribute(ctx, "sixteen") == None
  {
    assert "sixteenBit" in AttributeKeys;
  }

  /** GetPlatformExclusivity: pc, sy and ms name battlenet, playstation and xbox. */
  function GetPlatformExclusivity(reference: Option<string>): (r: Option<string>)
    ensures r.Some? ==> r.value in {"battlenet", "playstation", "xbox"}
  {
    match reference
    case None => None
    case Some(code) =>
      if code == "pc" then Some("battlenet")
      else if code == "sy" then Some("playstation")
      else if code == "ms" then Some("xbox")
      else None
  }

  /** The platform code of a store name: the inverse of GetPlatformExclusivity. */
  function PlatformCode(platform: string): string {
    if platform == "battlenet" then "pc" else if platform == "playstation" then "sy" else "ms"
  }

  lemma PlatformRoundTrip(reference: Option<string>)
    requires GetPlatformExclusivity(reference).Some?
    ensures reference == Some(PlatformCode(GetPlatformExclusivity(reference).value))
  {
  }

  // ----- Title availability -----

  datatype Availability = Availability(coldWar: bool, warzone: bool, modernWarfare: bool)

  const DefaultAvailability := Availability(false, true, true)

  function AvailabilityOf(s: ItemSource): Availability {
    Availability(s.equippableT9, s.equippableWZ, s.equippableIW8MP)
  }

  function ScanAvailability(sources: seq<ItemSource>, id: int): Availability
    decreases |sources|
  {
    if sources == [] then DefaultAvailability
    else if sources[0].marketPlaceID == id then AvailabilityOf(sources[0])
    else ScanAvailability(sources[1..], id)
  }

  /** GetTitleAvailability; an absent id matches no row. */
  function GetTitleAvailability(ctx: Context, id: Option<int>): (r: Availability)
    ensures id.None? ==> r == DefaultAvailability
  {
    match id
    case None => DefaultAvailability
    case Some(i) => ScanAvailability(ctx.itemSources, i)
  }

  /** The flags of the first row with the id. */
  lemma {:induction false} AvailabilityFirstMatch(sources: seq<ItemSource>, id: int, i: nat)
    requires i < |sources| && sources[i].marketPlaceID == id
    requires forall j :: 0 <= j < i ==> sources[j].marketPlaceID != id
    ensures ScanAvailability(sources, id) == AvailabilityOf(sources[i])
    decreases i
  {
    if i > 0 {
      assert sources[0].marketPlaceID != id;
      AvailabilityFirstMatch(sources[1..], id, i - 1);
    }
  }

  /** With no row for the id: {coldWar: false, warzone: true, modernWarfare: true}. */
  lemma {:induction false} AvailabilityDefault(sources: seq<ItemSource>, id: int)
    requires forall j :: 0 <= j < |sources| ==> sources[j].marketPlaceID != id
    ensures ScanAvailability(sources, id) == DefaultAvailability
    decreases |sources|
  {
    if sources != [] {
      assert sources[0].marketPlaceID != id;
      AvailabilityDefault(sources[1..], id);
    }
  }

  // ----- Rewards -----

  /** A `{"id": id, "type": GetLootType(id)}` reward entry. */
  datatype LootReward = LootReward(id: Option<int>, lootType: Option<string>)

  function RewardOf(ctx: Context, id: Option<int>): (r: LootReward)
    ensures r.id == id && r.lootType == GetLootType(ctx, id)
  {
    LootReward(id, GetLootType(ctx, id))
  }
}
