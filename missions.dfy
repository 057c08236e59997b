/**
 * XAssets/missions.py: quest rows grouped into missions by adjacent names, the intel join that
 * gives objectives their images, mission items, and Battle Royale missions.
 */
module Missions {
  import opened Wrappers
  import opened Text
  import opened Resolvers

  // ----- Quest missions (quest_challenges.csv) -----

  datatype QuestRow = QuestRow(
    id: Option<int>, ref: Option<string>, name: Option<string>, desc: Option<string>, image: Option<string>,
    category: Option<string>, amount: Option<int>, xp: Option<int>, loot: Option<int>,
    detailDesc: Option<string>, season: Option<int>)

  /** An objective; `image` is None while the record has no `image` key and Some(cell) once the intel join set one. */
  datatype Objective = Objective(
    altId: Option<string>, description: Option<string>, xp: Option<int>, rewards: seq<LootReward>,
    image: Option<Option<string>>)

  datatype Mission = Mission(
    id: Option<int>, name: Option<string>, description: Option<string>, category: Option<string>,
    season: Option<string>, image: Option<string>, objectives: seq<Objective>)

  /** The objective a row contributes: a reward when `loot` is present, the description filled with `str(amount)`. */
  function ObjectiveOf(ctx: Context, row: QuestRow): (o: Objective)
    ensures |o.rewards| == (if row.loot.Some? then 1 else 0)
    ensures o.description.None? <==> Localized(ctx.localize, row.desc).None?
    ensures o.altId == row.ref && o.image.None?
  {
    var desc := Localized(ctx.localize, row.desc);
    Objective(
      row.ref,
      if desc.None? then None else Some(Replace(desc.value, Template, Str(row.amount))),
      row.xp,
      if row.loot.Some? then [RewardOf(ctx, row.loot)] else [],
      None)
  }

  /** The mission a row opens, holding that row's objective; `season * 1000` raises on an empty cell. */
  function MissionOf(ctx: Context, row: QuestRow): (m: Mission)
    requires row.season.Some?
    ensures m.objectives == [ObjectiveOf(ctx, row)]
  {
    Mission(
      row.id, Localized(ctx.localize, row.name), Localized(ctx.localize, row.detailDesc), row.category,
      GetLootSeason(ctx, row.season.value * 1000), row.image, [ObjectiveOf(ctx, row)])
  }

  /** The raw name of the row before row k, or None before the first row (the initial `last`). */
  function PrevName(rows: seq<QuestRow>, k: nat): Option<string>
    requires k <= |rows|
  {
    if k == 0 then None else rows[k - 1].name
  }

  /** Row k opens a new mission: its raw name differs from the previous row's. */
  predicate StartsAt(rows: seq<QuestRow>, k: nat)
    requires k < |rows|
  {
    rows[k].name != PrevName(rows, k)
  }

  /**
   * The rows the compiler gets through: every row that opens a mission has a season, and a first
   * row with no name (which opens none) finds a mission already in the accumulator.
   */
  predicate QuestRowsReadable(acc: seq<Mission>, rows: seq<QuestRow>) {
    (forall k :: 0 <= k < |rows| && StartsAt(rows, k) ==> rows[k].season.Some?)
    && (rows != [] && rows[0].name.None? ==> acc != [])
  }

  lemma ReadablePrefix(acc: seq<Mission>, rows: seq<QuestRow>, n: nat)
    requires n <= |rows| && QuestRowsReadable(acc, rows)
    ensures QuestRowsReadable(acc, rows[..n])
  {
    forall k | 0 <= k < n && StartsAt(rows[..n], k)
      ensures rows[..n][k].season.Some?
    {
      assert StartsAt(rows, k);
    }
  }

  /** The accumulator and the `last` variable of QuestTable. */
  datatype QuestState = QuestState(missions: seq<Mission>, last: Option<string>)

  /** `missions[-1]["objectives"].append(o)`. */
  function AddObjective(missions: seq<Mission>, o: Objective): (r: seq<Mission>)
    requires missions != []
    ensures |r| == |missions| && r[..|r| - 1] == missions[..|missions| - 1]
    ensures r[|r| - 1].objectives == missions[|missions| - 1].objectives + [o]
  {
    var m := missions[|missions| - 1];
    missions[|missions| - 1 := m.(objectives := m.objectives + [o])]
  }

  /** One row of QuestTable: open a mission when the name changes, else extend the most recent one. */
  function QuestStep(ctx: Context, s: QuestState, row: QuestRow): QuestState
    requires row.name != s.last ==> row.season.Some?
    requires row.name == s.last ==> s.missions != []
  {
    if row.name != s.last then QuestState(s.missions + [MissionOf(ctx, row)], row.name)
    else QuestState(AddObjective(s.missions, ObjectiveOf(ctx, row)), s.last)
  }

  /** The state after the rows, in order; `last` is always the raw name of the last row read. */
  function QuestFold(ctx: Context, acc: seq<Mission>, rows: seq<QuestRow>): (s: QuestState)
    requires QuestRowsReadable(acc, rows)
    ensures s.last == PrevName(rows, |rows|)
    ensures |s.missions| >= |acc| && (rows != [] ==> s.missions != [])
    decreases |rows|
  {
    if rows == [] then QuestState(acc, None)
    else
      ReadablePrefix(acc, rows, |rows| - 1);
      var init := rows[..|rows| - 1];
      assert |rows| - 1 > 0 ==> init[|rows| - 2] == rows[|rows| - 2];
      assert StartsAt(rows, |rows| - 1) ==> rows[|rows| - 1].season.Some?;
      QuestStep(ctx, QuestFold(ctx, acc, init), rows[|rows| - 1])
  }

  /** The number of rows that open a mission. */
  function StartCount(rows: seq<QuestRow>): nat
    decreases |rows|
  {
    if rows == [] then 0
    else StartCount(rows[..|rows| - 1]) + (if StartsAt(rows, |rows| - 1) then 1 else 0)
  }

  lemma StartCountPrefix(rows: seq<QuestRow>, n: nat)
    requires 0 < n <= |rows|
    ensures StartCount(rows[..n]) == StartCount(rows[..n - 1]) + (if StartsAt(rows, n - 1) then 1 else 0)
  {
    assert rows[..n][..n - 1] == rows[..n - 1];
  }

  /** QuestTable adds one mission per row whose name differs from the previous row's. */
  lemma {:induction false} MissionCount(ctx: Context, acc: seq<Mission>, rows: seq<QuestRow>)
    requires QuestRowsReadable(acc, rows)
    ensures |QuestFold(ctx, acc, rows).missions| == |acc| + StartCount(rows)
    decreases |rows|
  {
    hide ObjectiveOf, MissionOf;
    if rows != [] {
      ReadablePrefix(acc, rows, |rows| - 1);
      MissionCount(ctx, acc, rows[..|rows| - 1]);
    }
  }

  /** Names A, B, A make three missions: a repeat that is not adjacent opens a new one. */
  lemma NonAdjacentRepeat(ctx: Context, r1: QuestRow, r2: QuestRow, r3: QuestRow)
    requires r1.name.Some? && r2.name.Some? && r1.name != r2.name && r3.name == r1.name
    requires r1.season.Some? && r2.season.Some? && r3.season.Some?
    ensures |QuestFold(ctx, [], [r1, r2, r3]).missions| == 3
  {
    hide ObjectiveOf, MissionOf;
    var rows := [r1, r2, r3];
    assert StartsAt(rows, 0) && StartsAt(rows, 1) && StartsAt(rows, 2);
    StartCountPrefix(rows, 3);
    StartCountPrefix(rows, 2);
    StartCountPrefix(rows, 1);
    assert rows[..3] == rows && rows[..0] == [];
    MissionCount(ctx, [], rows);
  }

  /** The objectives of all missions, mission after mission. */
  function AllObjectives(missions: seq<Mission>): seq<Objective>
    decreases |missions|
  {
    if missions == [] then []
    else AllObjectives(missions[..|missions| - 1]) + missions[|missions| - 1].objectives
  }

  /** The objectives of the rows, in row order. */
  function RowObjectives(ctx: Context, rows: seq<QuestRow>): (r: seq<Objective>)
    ensures |r| == |rows|
    decreases |rows|
  {
    if rows == [] then [] else RowObjectives(ctx, rows[..|rows| - 1]) + [ObjectiveOf(ctx, rows[|rows| - 1])]
  }

  lemma AddObjectiveAll(missions: seq<Mission>, o: Objective)
    requires missions != []
    ensures AllObjectives(AddObjective(missions, o)) == AllObjectives(missions) + [o]
  {
    var r := AddObjective(missions, o);
    assert r[..|r| - 1] == missions[..|missions| - 1];
  }

  lemma AppendMissionAll(missions: seq<Mission>, m: Mission)
    ensures AllObjectives(missions + [m]) == AllObjectives(missions) + m.objectives
  {
    assert (missions + [m])[..|missions|] == missions;
  }

  /** Every row contributes exactly one objective, and the objectives keep row order across missions. */
  lemma {:induction false} OneObjectivePerRow(ctx: Context, acc: seq<Mission>, rows: seq<QuestRow>)
    requires QuestRowsReadable(acc, rows)
    ensures AllObjectives(QuestFold(ctx, acc, rows).missions) == AllObjectives(acc) + RowObjectives(ctx, rows)
    decreases |rows|
  {
    hide ObjectiveOf, MissionOf;
    if rows != [] {
      var init := rows[..|rows| - 1];
      var row := rows[|rows| - 1];
      ReadablePrefix(acc, rows, |rows| - 1);
      OneObjectivePerRow(ctx, acc, init);
      var s := QuestFold(ctx, acc, init);
      if row.name != s.last {
        AppendMissionAll(s.missions, MissionOf(ctx, row));
      } else {
        AddObjectiveAll(s.missions, ObjectiveOf(ctx, row));
      }
    }
  }

  /** The objective of the last row read is the last objective of the most recent mission. */
  lemma LastRowLastObjective(ctx: Context, acc: seq<Mission>, rows: seq<QuestRow>)
    requires rows != [] && QuestRowsReadable(acc, rows)
    ensures var ms := QuestFold(ctx, acc, rows).missions;
      && ms[|ms| - 1].objectives != []
      && ms[|ms| - 1].objectives[|ms[|ms| - 1].objectives| - 1] == ObjectiveOf(ctx, rows[|rows| - 1])
  {
    hide ObjectiveOf, MissionOf;
    ReadablePrefix(acc, rows, |rows| - 1);
  }

  /** A mission's season is that of its season number's first code, `season * 1000`. */
  lemma MissionSeason(ctx: Context, row: QuestRow, n: int)
    requires row.season == Some(n)
    ensures n != 0 ==> MissionOf(ctx, row).season == Lookup(ctx.localize, SeasonKey(n))
    ensures n == 0 ==> MissionOf(ctx, row).season.None?
  {
    if n != 0 {
      SeasonOffsets(ctx, n, 0);
    }
  }

  /** A single `&&1` receives `str(amount)`, which is `"None"` for an empty amount cell. */
  lemma ObjectiveAmount(ctx: Context, row: QuestRow, before: string, after: string)
    requires Localized(ctx.localize, row.desc) == Some(before + Template + after)
    requires '&' !in before && !Occurs(after, Template)
    ensures ObjectiveOf(ctx, row).description == Some(before + Str(row.amount) + after)
  {
    ReplaceOnce(before, Template, after, Str(row.amount));
  }

  /** `missions[-1]["objectives"][-1]`. */
  function LastObjective(missions: seq<Mission>): Objective
    requires missions != [] && missions[|missions| - 1].objectives != []
  {
    var objs := missions[|missions| - 1].objectives;
    objs[|objs| - 1]
  }

  /** `missions[-1]["objectives"][-1] = o`. */
  function SetLastObjective(missions: seq<Mission>, o: Objective): seq<Mission>
    requires missions != [] && missions[|missions| - 1].objectives != []
  {
    var m := missions[|missions| - 1];
    missions[|missions| - 1 := m.(objectives := m.objectives[|m.objectives| - 1 := o])]
  }

  lemma SetAfterAdd(missions: seq<Mission>, a: Objective, b: Objective)
    requires missions != []
    ensures SetLastObjective(AddObjective(missions, a), b) == AddObjective(missions, b)
  {
    var m := missions[|missions| - 1];
    assert (m.objectives + [a])[|m.objectives| := b] == m.objectives + [b];
  }

  lemma SetAfterAppend(missions: seq<Mission>, m: Mission, b: Objective)
    requires m.objectives != []
    ensures SetLastObjective(missions + [m], b) == missions + [m.(objectives := m.objectives[|m.objectives| - 1 := b])]
  {
  }

  /**
   * The body of the QuestTable loop for one row: open or extend a mission with a bare objective,
   * then append the reward to it and fill its description in place.
   */
  method QuestEntry(ctx: Context, missions: seq<Mission>, last: Option<string>, entry: QuestRow)
    returns (out: seq<Mission>, newLast: Option<string>)
    requires entry.name != last ==> entry.season.Some?
    requires entry.name == last ==> missions != []
    ensures QuestState(out, newLast) == QuestStep(ctx, QuestState(missions, last), entry)
  {
    hide Replace, GetLootType, GetLootSeason;
    var objective := Objective(entry.ref, Localized(ctx.localize, entry.desc), entry.xp, [], None);
    ghost var base := missions;
    var isNew := entry.name != last;
    if entry.name != last {
      out := missions + [Mission(
        entry.id, Localized(ctx.localize, entry.name), Localized(ctx.localize, entry.detailDesc), entry.category,
        GetLootSeason(ctx, entry.season.value * 1000), entry.image, [objective])];
      newLast := entry.name;
    } else {
      var m := missions[|missions| - 1];
      out := missions[|missions| - 1 := m.(objectives := m.objectives + [objective])];
      newLast := last;
    }
    var current := objective;
    if entry.loot.Some? {
      current := current.(rewards := current.rewards + [RewardOf(ctx, entry.loot)]);
    }
    if current.description.Some? {
      current := current.(description := Some(Replace(current.description.value, Template, Str(entry.amount))));
    }
    assert current == ObjectiveOf(ctx, entry);
    if isNew {
      var created := Mission(
        entry.id, Localized(ctx.localize, entry.name), Localized(ctx.localize, entry.detailDesc), entry.category,
        GetLootSeason(ctx, entry.season.value * 1000), entry.image, [objective]);
      SetAfterAppend(base, created, current);
      assert [objective][0 := current] == [current];
      assert created.(objectives := [current]) == MissionOf(ctx, entry);
      out := SetLastObjective(out, current);
      assert out == base + [MissionOf(ctx, entry)];
    } else {
      SetAfterAdd(base, objective, current);
      out := SetLastObjective(out, current);
      assert out == AddObjective(base, ObjectiveOf(ctx, entry));
    }
  }

  /** Missions.QuestTable: `last` holds the raw name of the previous row; a change of name opens a mission. */
  method QuestTable(ctx: Context, table: Option<seq<QuestRow>>, missions: seq<Mission>) returns (out: seq<Mission>)
    requires table.Some? ==> QuestRowsReadable(missions, table.value)
    ensures table.None? ==> out == missions
    ensures table.Some? ==> out == QuestFold(ctx, missions, table.value).missions
  {
    hide QuestStep;
    out := missions;
    if table.None? {
      return;
    }
    var rows := table.value;
    var last: Option<string> := None;
    for i := 0 to |rows|
      invariant QuestState(out, last) == QuestFold(ctx, missions, rows[..i])
    {
      ReadablePrefix(missions, rows, i + 1);
      assert rows[..i + 1][..i] == rows[..i];
      assert StartsAt(rows, i) ==> rows[i].season.Some?;
      out, last := QuestEntry(ctx, out, last, rows[i]);
    }
    assert rows[..|rows|] == rows;
  }

  // ----- Intel images (mp/intel_challenges.csv) -----

  datatype IntelRow = IntelRow(ref: Option<string>, image: Option<string>)

  /** The objective after each row of `table` whose ref equals its altId has set its image, in row order. */
  function WithIntel(o: Objective, table: seq<IntelRow>): (r: Objective)
    ensures r == o.(image := r.image)
    decreases |table|
  {
    if table == [] then o
    else
      var prev := WithIntel(o, table[..|table| - 1]);
      if o.altId == table[|table| - 1].ref then prev.(image := Some(table[|table| - 1].image)) else prev
  }

  /** The last matching row decides the image. */
  lemma {:induction false} IntelLastMatchWins(o: Objective, table: seq<IntelRow>, k: nat)
    requires k < |table| && table[k].ref == o.altId
    requires forall j :: k < j < |table| ==> table[j].ref != o.altId
    ensures WithIntel(o, table).image == Some(table[k].image)
    decreases |table|
  {
    if k < |table| - 1 {
      IntelLastMatchWins(o, table[..|table| - 1], k);
    }
  }

  /** An objective that no row names keeps its record, with no `image` key added. */
  lemma {:induction false} IntelNoMatch(o: Objective, table: seq<IntelRow>)
    requires forall j :: 0 <= j < |table| ==> table[j].ref != o.altId
    ensures WithIntel(o, table) == o
    decreases |table|
  {
    if table != [] {
      IntelNoMatch(o, table[..|table| - 1]);
    }
  }

  function IntelObjectives(objectives: seq<Objective>, table: seq<IntelRow>): (r: seq<Objective>)
    ensures |r| == |objectives|
  {
    seq(|objectives|, j requires 0 <= j < |objectives| => WithIntel(objectives[j], table))
  }

  /** The innermost loop: each row whose ref equals the objective's altId overwrites its image. */
  method ApplyIntel(objective: Objective, table: seq<IntelRow>) returns (r: Objective)
    ensures r == WithIntel(objective, table)
  {
    r := objective;
    for k := 0 to |table|
      invariant r == WithIntel(objective, table[..k])
    {
      assert table[..k + 1][..k] == table[..k];
      if r.altId != table[k].ref {
        continue;
      }
      r := r.(image := Some(table[k].image));
    }
    assert table[..|table|] == table;
  }

  /** The loop over one mission's objectives. */
  method IntelMission(m: Mission, table: seq<IntelRow>) returns (r: Mission)
    ensures r == m.(objectives := IntelObjectives(m.objectives, table))
  {
    var objectives := m.objectives;
    for j := 0 to |objectives|
      invariant |objectives| == |m.objectives|
      invariant forall k :: 0 <= k < j ==> objectives[k] == WithIntel(m.objectives[k], table)
      invariant forall k :: j <= k < |objectives| ==> objectives[k] == m.objectives[k]
    {
      var objective := ApplyIntel(objectives[j], table);
      objectives := objectives[j := objective];
    }
    r := m.(objectives := objectives);
  }

  /** Missions.IntelTable: no mission or objective is added or removed, only images are set. */
  method IntelTable(table: Option<seq<IntelRow>>, missions: seq<Mission>) returns (out: seq<Mission>)
    ensures table.None? ==> out == missions
    ensures |out| == |missions|
    ensures table.Some? ==> forall i :: 0 <= i < |out| ==> out[i] == missions[i].(objectives := IntelObjectives(missions[i].objectives, table.value))
  {
    out := missions;
    if table.None? {
      return;
    }
    var rows := table.value;
    for i := 0 to |out|
      invariant |out| == |missions|
      invariant forall k :: 0 <= k < i ==> out[k] == missions[k].(objectives := IntelObjectives(missions[k].objectives, rows))
      invariant forall k :: i <= k < |out| ==> out[k] == missions[k]
    {
      var mission := IntelMission(out[i], rows);
      out := out[i := mission];
    }
  }

  // ----- Mission items (loot/mission_ids.csv) -----

  datatype MissionIdRow = MissionIdRow(
    ref: Option<int>, quality: Option<int>, license: Option<int>, operatorSkinID: Option<int>,
    missionImage: Option<string>, missionName: Option<string>, missionRef: Option<string>,
    operatorMissionItemID: Option<int>)

  datatype MissionItem = MissionItem(
    id: Option<int>, altId: Option<string>, name: Option<string>, lootType: Option<string>,
    rarity: Option<string>, season: Option<string>, challengeId: Option<int>, image: Option<string>,
    background: string, rewards: seq<LootReward>)

  const FeatureBackground: string := "ui_loot_bg_feature"

  /** The record of a row; GetLootSeason raises on an empty license. */
  function MissionItemRecord(ctx: Context, row: MissionIdRow): (r: MissionItem)
    requires row.license.Some?
    ensures r.background == FeatureBackground
    ensures r.rewards == [LootReward(row.operatorSkinID, GetLootType(ctx, row.operatorSkinID))]
    ensures r.id == row.operatorMissionItemID && r.lootType == GetLootType(ctx, row.operatorMissionItemID)
  {
    MissionItem(
      row.operatorMissionItemID, row.missionRef, Localized(ctx.localize, row.missionName),
      GetLootType(ctx, row.operatorMissionItemID), GetLootRarity(ctx, row.quality),
      GetLootSeason(ctx, row.license.value), row.ref, row.missionImage, FeatureBackground,
      [RewardOf(ctx, row.operatorSkinID)])
  }

  /** MissionItems.IDs. */
  method MissionItemIDs(ctx: Context, ids: Option<seq<MissionIdRow>>, items: seq<MissionItem>) returns (out: seq<MissionItem>)
    requires ids.Some? ==> forall row <- ids.value :: row.license.Some?
    ensures ids.None? ==> out == items
    ensures ids.Some? ==> Extends(items, out, |ids.value|)
    ensures ids.Some? ==> forall k :: 0 <= k < |ids.value| ==> out[|items| + k] == MissionItemRecord(ctx, ids.value[k])
  {
    hide MissionItemRecord;
    out := items;
    if ids.None? {
      return;
    }
    var rows := ids.value;
    for i := 0 to |rows|
      invariant Extends(items, out, i)
      invariant forall k :: 0 <= k < i ==> out[|items| + k] == MissionItemRecord(ctx, rows[k])
    {
      out := out + [MissionItemRecord(ctx, rows[i])];
    }
  }

  // ----- Battle Royale missions (mp/brmissions.csv) -----

  datatype BRMissionRow = BRMissionRow(
    ref: Option<string>, title: Option<string>, description: Option<string>, icon: Option<string>,
    hasTimer: Option<int>, mapKeyTitle: Option<string>)

  datatype BRMission = BRMission(
    altId: Option<string>, name: Option<string>, description: Option<string>, image: Option<string>, timed: bool)

  /** The title text, else the map-key title text. */
  function BRTitle(ctx: Context, row: BRMissionRow): Option<string> {
    if Localized(ctx.localize, row.title).Some? then Localized(ctx.localize, row.title)
    else Localized(ctx.localize, row.mapKeyTitle)
  }

  /** The record of a row; `titleCase` stands for Python's `str.title`. */
  function BRMissionRecord(ctx: Context, titleCase: string -> string, row: BRMissionRow): BRMission {
    var title := BRTitle(ctx, row);
    BRMission(
      row.ref, if title.None? then None else Some(titleCase(title.value)),
      Localized(ctx.localize, row.description), row.icon, Truthy(row.hasTimer))
  }

  /** The name is the title-cased title, else the title-cased map-key title, else None. */
  lemma BRMissionName(ctx: Context, titleCase: string -> string, row: BRMissionRow)
    ensures var r := BRMissionRecord(ctx, titleCase, row);
      && (Localized(ctx.localize, row.title).Some? ==> r.name == Some(titleCase(Localized(ctx.localize, row.title).value)))
      && (Localized(ctx.localize, row.title).None? && Localized(ctx.localize, row.mapKeyTitle).Some?
          ==> r.name == Some(titleCase(Localized(ctx.localize, row.mapKeyTitle).value)))
      && (r.name.None? <==> Localized(ctx.localize, row.title).None? && Localized(ctx.localize, row.mapKeyTitle).None?)
      && r.timed == Truthy(row.hasTimer)
  {
  }

  /** The body of the BRMissions loop for one row. */
  method BREntry(ctx: Context, titleCase: string -> string, entry: BRMissionRow) returns (r: BRMission)
    ensures r == BRMissionRecord(ctx, titleCase, entry)
  {
    var title := Localized(ctx.localize, entry.title);
    if title.None? {
      title := Localized(ctx.localize, entry.mapKeyTitle);
    }
    r := BRMission(
      entry.ref, if title.None? then None else Some(titleCase(title.value)),
      Localized(ctx.localize, entry.description), entry.icon, Truthy(entry.hasTimer));
  }

  /** BRMissions.Table. */
  method BRMissionsTable(ctx: Context, titleCase: string -> string, table: Option<seq<BRMissionRow>>, missions: seq<BRMission>)
    returns (out: seq<BRMission>)
    ensures table.None? ==> out == missions
    ensures table.Some? ==> Extends(missions, out, |table.value|)
    ensures table.Some? ==> forall k :: 0 <= k < |table.value| ==> out[|missions| + k] == BRMissionRecord(ctx, titleCase, table.value[k])
  {
    hide BRMissionRecord;
    out := missions;
    if table.None? {
      return;
    }
    var rows := table.value;
    for i := 0 to |rows|
      invariant Extends(missions, out, i)
      invariant forall k :: 0 <= k < i ==> out[|missions| + k] == BRMissionRecord(ctx, titleCase, rows[k])
    {
      var mission := BREntry(ctx, titleCase, rows[i]);
      out := out + [mission];
    }
  }
}
