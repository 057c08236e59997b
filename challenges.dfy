/**
 * The challenge and reward compilers of XAssets/challenges.py. Each `Table` method walks the rows
 * of one CSV in order and appends one record per row to the accumulator it is given; a table that
 * could not be read (None) leaves the accumulator as it was.
 */
module Challenges {
  import opened Wrappers
  import opened Text
  import opened Resolvers

  // ----- Officer challenges (elder_challenges.csv) -----

  datatype ElderRow = ElderRow(
    ref: string, name: Option<string>, desc: Option<string>, amount: Option<int>, xp: Option<int>)

  datatype OfficerChallenge = OfficerChallenge(
    altId: string, name: Option<string>, description: string, season: Option<nat>, xp: Option<int>)

  const ElderPrefix: string := "ch_elder_s"

  /** A row the compiler gets through: the description text and amount exist and a prefixed ref carries a number. */
  predicate OfficerRowReadable(ctx: Context, row: ElderRow) {
    row.amount.Some? && Localized(ctx.localize, row.desc).Some?
    && (StartsWith(row.ref, ElderPrefix) ==> SegmentNumber(row.ref, ElderPrefix).Some?)
  }

  /** The season encoded in an officer challenge ref, between `ch_elder_s` and the next `_`. */
  function OfficerSeason(reference: string): (season: Option<nat>)
    ensures season.Some? ==> StartsWith(reference, ElderPrefix)
  {
    if StartsWith(reference, ElderPrefix) then SegmentNumber(reference, ElderPrefix) else None
  }

  function OfficerRecord(ctx: Context, row: ElderRow): (r: OfficerChallenge)
    requires OfficerRowReadable(ctx, row)
    ensures r.altId == row.ref && r.xp == row.xp && r.name == Localized(ctx.localize, row.name)
    ensures r.season.Some? <==> StartsWith(row.ref, ElderPrefix)
  {
    OfficerChallenge(
      row.ref,
      Localized(ctx.localize, row.name),
      Replace(Localized(ctx.localize, row.desc).value, Template, Grouped(row.amount.value)),
      OfficerSeason(row.ref),
      row.xp)
  }

  /** `ch_elder_s<n>_...` is a season-n officer challenge. */
  lemma OfficerSeasonFromRef(n: nat, rest: string)
    ensures OfficerSeason(ElderPrefix + NatToString(n) + "_" + rest) == Some(n)
  {
    var reference := ElderPrefix + NatToString(n) + "_" + rest;
    assert reference == [] + ElderPrefix + NatToString(n) + "_" + rest;
    assert reference[..|ElderPrefix|] == ElderPrefix;
    SegmentNumberRoundTrip([], ElderPrefix, n, rest);
  }

  /** A single `&&1` receives the comma-grouped amount, which reads back as the plain number without its commas. */
  lemma OfficerAmountGrouped(ctx: Context, row: ElderRow, before: string, after: string)
    requires OfficerRowReadable(ctx, row)
    requires Localized(ctx.localize, row.desc).value == before + Template + after
    requires '&' !in before && !Occurs(after, Template)
    ensures OfficerRecord(ctx, row).description == before + Grouped(row.amount.value) + after
    ensures RemoveCommas(Grouped(row.amount.value)) == IntToString(row.amount.value)
  {
    ReplaceOnce(before, Template, after, Grouped(row.amount.value));
    UngroupInt(row.amount.value);
  }

  /** OfficerChallenges.Table. */
  method OfficerTable(ctx: Context, table: Option<seq<ElderRow>>, challenges: seq<OfficerChallenge>)
    returns (out: seq<OfficerChallenge>)
    requires table.Some? ==> forall row <- table.value :: OfficerRowReadable(ctx, row)
    ensures table.None? ==> out == challenges
    ensures table.Some? ==> Extends(challenges, out, |table.value|)
    ensures table.Some? ==> forall k :: 0 <= k < |table.value| ==> out[|challenges| + k] == OfficerRecord(ctx, table.value[k])
  {
    hide OfficerRecord, OfficerRowReadable;
    out := challenges;
    if table.None? {
      return;
    }
    var rows := table.value;
    for i := 0 to |rows|
      invariant Extends(challenges, out, i)
      invariant forall k :: 0 <= k < i ==> out[|challenges| + k] == OfficerRecord(ctx, rows[k])
    {
      out := out + [OfficerRecord(ctx, rows[i])];
    }
  }

  // ----- Weapon unlock challenges (gun_unlock_challenges.csv) -----

  datatype GunUnlockRow = GunUnlockRow(
    id: Option<int>, ref: Option<string>, name: Option<string>, desc: Option<string>,
    amount: Option<int>, xp: Option<int>, loot: Option<int>)

  /** An entry of a `rewards` list that holds either a loot item or an XP amount. */
  datatype ChallengeReward = LootEntry(loot: LootReward) | XpEntry(xp: Option<int>)

  datatype WeaponUnlockChallenge = WeaponUnlockChallenge(
    id: Option<int>, altId: Option<string>, name: Option<string>, description: Option<string>,
    rewards: seq<ChallengeReward>)

  /** Substitution raises when the description text exists but the amount does not. */
  predicate WeaponUnlockRowReadable(ctx: Context, row: GunUnlockRow) {
    Localized(ctx.localize, row.desc).Some? ==> row.amount.Some?
  }

  function WeaponUnlockRecord(ctx: Context, row: GunUnlockRow): (r: WeaponUnlockChallenge)
    requires WeaponUnlockRowReadable(ctx, row)
    ensures r.description.None? <==> Localized(ctx.localize, row.desc).None?
    ensures r.rewards == [LootEntry(LootReward(row.loot, GetLootType(ctx, row.loot))), XpEntry(row.xp)]
    ensures r.id == row.id && r.altId == row.ref && r.name == Localized(ctx.localize, row.name)
  {
    var loc := Localized(ctx.localize, row.desc);
    WeaponUnlockChallenge(
      row.id, row.ref, Localized(ctx.localize, row.name),
      if loc.None? then None else Some(Replace(loc.value, Template, Grouped(row.amount.value))),
      [LootEntry(RewardOf(ctx, row.loot)), XpEntry(row.xp)])
  }

  /** WeaponUnlockChallenges.Table. */
  method WeaponUnlockTable(ctx: Context, table: Option<seq<GunUnlockRow>>, challenges: seq<WeaponUnlockChallenge>)
    returns (out: seq<WeaponUnlockChallenge>)
    requires table.Some? ==> forall row <- table.value :: WeaponUnlockRowReadable(ctx, row)
    ensures table.None? ==> out == challenges
    ensures table.Some? ==> Extends(challenges, out, |table.value|)
    ensures table.Some? ==> forall k :: 0 <= k < |table.value| ==> out[|challenges| + k] == WeaponUnlockRecord(ctx, table.value[k])
  {
    hide WeaponUnlockRecord, WeaponUnlockRowReadable;
    out := challenges;
    if table.None? {
      return;
    }
    var rows := table.value;
    for i := 0 to |rows|
      invariant Extends(challenges, out, i)
      invariant forall k :: 0 <= k < i ==> out[|challenges| + k] == WeaponUnlockRecord(ctx, rows[k])
    {
      out := out + [WeaponUnlockRecord(ctx, rows[i])];
    }
  }

  // ----- Weekly challenges (br_weekly_challenges.csv and weekly_challenges.csv) -----

  /** The columns of a weekly challenge row that the compiler reads; both weekly tables share them. */
  datatype WeeklyRow = WeeklyRow(
    id: Option<int>, ref: string, name: Option<string>, desc: Option<string>, amount: Option<int>,
    xp: Option<int>, loot: Option<int>, start: Option<int>)

  datatype WeeklyChallenge = WeeklyChallenge(
    id: Option<int>, altId: string, name: Option<string>, description: string, start: Option<string>,
    season: nat, week: nat, xp: Option<int>, rewards: seq<LootReward>)

  /** A row the compiler gets through: the ref has numeric `season_` and `week_` segments, and the description and amount exist. */
  predicate WeeklyRowReadable(ctx: Context, row: WeeklyRow) {
    SegmentNumber(row.ref, "season_").Some? && SegmentNumber(row.ref, "week_").Some?
    && row.amount.Some? && Localized(ctx.localize, row.desc).Some?
  }

  /** The record of a row; `prettyTime` stands for Utility.PrettyTime. */
  function WeeklyRecord(ctx: Context, prettyTime: Option<int> -> Option<string>, row: WeeklyRow): (r: WeeklyChallenge)
    requires WeeklyRowReadable(ctx, row)
  {
    WeeklyChallenge(
      row.id, row.ref, Localized(ctx.localize, row.name),
      Replace(Localized(ctx.localize, row.desc).value, Template, Grouped(row.amount.value)),
      prettyTime(row.start),
      SegmentNumber(row.ref, "season_").value, SegmentNumber(row.ref, "week_").value,
      row.xp,
      if row.loot.Some? then [RewardOf(ctx, row.loot)] else [])
  }

  /** A weekly record keeps the ref and start time and carries the row's loot, typed, as its only reward. */
  lemma WeeklyRewards(ctx: Context, prettyTime: Option<int> -> Option<string>, row: WeeklyRow)
    requires WeeklyRowReadable(ctx, row)
    ensures var r := WeeklyRecord(ctx, prettyTime, row);
      && |r.rewards| == (if row.loot.Some? then 1 else 0)
      && (row.loot.Some? ==> r.rewards[0] == LootReward(row.loot, GetLootType(ctx, row.loot)))
      && r.altId == row.ref && r.start == prettyTime(row.start)
  {
  }

  /** A character that is not a digit does not occur in a number's decimal text. */
  lemma NotInNumber(c: char, n: nat)
    requires !IsDigit(c)
    ensures c !in NatToString(n)
  {
    var digits := NatToString(n);
    assert forall d <- digits :: IsDigit(d);
  }

  /** The `season_` segment of a weekly ref whose `season_` comes first. */
  lemma SeasonSegment(pre: string, s: nat, tail: string)
    requires 's' !in pre
    ensures SegmentNumber(pre + "season_" + NatToString(s) + "_" + tail, "season_") == Some(s)
  {
    SegmentNumberRoundTrip(pre, "season_", s, tail);
  }

  /** Text made of `pre`, `season_<s>_` and `mid` has no `w` when `pre` and `mid` have none. */
  lemma NoWeekMarker(pre: string, s: nat, mid: string)
    requires 'w' !in pre && 'w' !in mid
    ensures 'w' !in pre + "season_" + NatToString(s) + "_" + mid
  {
    NotInNumber('w', s);
    assert 'w' !in "season_" && 'w' !in "_";
  }

  /** `..season_<s>_..week_<w>_..` is week w of season s. */
  lemma WeeklyRefDecoding(pre: string, s: nat, mid: string, w: nat, rest: string)
    requires 's' !in pre && 'w' !in pre && 'w' !in mid
    ensures var head := pre + "season_" + NatToString(s) + "_" + mid;
      SegmentNumber(head + "week_" + NatToString(w) + "_" + rest, "season_") == Some(s)
      && SegmentNumber(head + "week_" + NatToString(w) + "_" + rest, "week_") == Some(w)
  {
    var head := pre + "season_" + NatToString(s) + "_" + mid;
    var tail := mid + "week_" + NatToString(w) + "_" + rest;
    assert head + "week_" + NatToString(w) + "_" + rest == pre + "season_" + NatToString(s) + "_" + tail;
    SeasonSegment(pre, s, tail);
    NoWeekMarker(pre, s, mid);
    SegmentNumberRoundTrip(head, "week_", w, rest);
  }

  /** A weekly record's season and week are the numbers in its ref. */
  lemma WeeklyRecordDecodes(ctx: Context, prettyTime: Option<int> -> Option<string>, row: WeeklyRow,
                            pre: string, s: nat, mid: string, w: nat, rest: string)
    requires 's' !in pre && 'w' !in pre && 'w' !in mid
    requires row.ref == pre + "season_" + NatToString(s) + "_" + mid + "week_" + NatToString(w) + "_" + rest
    requires row.amount.Some? && Localized(ctx.localize, row.desc).Some?
    ensures WeeklyRowReadable(ctx, row)
    ensures WeeklyRecord(ctx, prettyTime, row).season == s && WeeklyRecord(ctx, prettyTime, row).week == w
  {
    WeeklyRefDecoding(pre, s, mid, w, rest);
  }

  /**
   * The body of the weekly loop for one row: the record is appended with no rewards, and a
   * present `loot` is then appended to the rewards of that last record.
   */
  method AppendWeekly(ctx: Context, prettyTime: Option<int> -> Option<string>, challenges: seq<WeeklyChallenge>, entry: WeeklyRow)
    returns (out: seq<WeeklyChallenge>)
    requires WeeklyRowReadable(ctx, entry)
    ensures out == challenges + [WeeklyRecord(ctx, prettyTime, entry)]
  {
    hide Replace, Grouped, IntToString, GetLootType;
    var season := SegmentNumber(entry.ref, "season_").value;
    var week := SegmentNumber(entry.ref, "week_").value;
    var amount := Grouped(entry.amount.value);
    out := challenges + [WeeklyChallenge(
      entry.id, entry.ref, Localized(ctx.localize, entry.name),
      Replace(Localized(ctx.localize, entry.desc).value, Template, amount),
      prettyTime(entry.start), season, week, entry.xp, [])];
    if entry.loot.Some? {
      var last := out[|out| - 1];
      assert last.rewards + [RewardOf(ctx, entry.loot)] == [RewardOf(ctx, entry.loot)];
      ReplaceLast(challenges, last, last.(rewards := last.rewards + [RewardOf(ctx, entry.loot)]));
      out := out[|out| - 1 := last.(rewards := last.rewards + [RewardOf(ctx, entry.loot)])];
    }
  }

  /** WeeklyChallengesBR.Table and WeeklyChallengesMP.Table, which are the same code over different files. */
  method WeeklyTable(ctx: Context, prettyTime: Option<int> -> Option<string>, table: Option<seq<WeeklyRow>>, challenges: seq<WeeklyChallenge>)
    returns (out: seq<WeeklyChallenge>)
    requires table.Some? ==> forall row <- table.value :: WeeklyRowReadable(ctx, row)
    ensures table.None? ==> out == challenges
    ensures table.Some? ==> Extends(challenges, out, |table.value|)
    ensures table.Some? ==> forall k :: 0 <= k < |table.value| ==> out[|challenges| + k] == WeeklyRecord(ctx, prettyTime, table.value[k])
  {
    hide WeeklyRecord, WeeklyRowReadable;
    out := challenges;
    if table.None? {
      return;
    }
    var rows := table.value;
    for i := 0 to |rows|
      invariant Extends(challenges, out, i)
      invariant forall k :: 0 <= k < i ==> out[|challenges| + k] == WeeklyRecord(ctx, prettyTime, rows[k])
    {
      out := AppendWeekly(ctx, prettyTime, out, rows[i]);
    }
  }

  // ----- Mastery challenges (sticker_book_challenges.csv) -----

  /** The `amount`, `loot` and `XPReward` cells hold integer arrays, given here already split (Utility.GetCSVArray). */
  datatype StickerBookRow = StickerBookRow(
    ref: Option<string>, name: Option<string>, desc: Option<string>, categoryType: Option<string>,
    amounts: seq<int>, loot: seq<int>, xp: seq<int>)

  datatype MasteryReward = MasteryReward(amount: int, xp: int, loot: LootReward)

  datatype MasteryChallenge = MasteryChallenge(
    altId: Option<string>, name: Option<string>, description: Option<string>, category: Option<string>,
    rewards: seq<MasteryReward>)

  /** `amounts[-1]` raises on an empty array once there is a description to fill in. */
  predicate MasteryRowReadable(ctx: Context, row: StickerBookRow) {
    Localized(ctx.localize, row.desc).Some? ==> |row.amounts| > 0
  }

  function Min3(a: nat, b: nat, c: nat): (m: nat)
    ensures m <= a && m <= b && m <= c && (m == a || m == b || m == c)
  {
    if a <= b && a <= c then a else if b <= c then b else c
  }

  /** The reward made from position k of the three arrays. */
  function MasteryRewardAt(ctx: Context, row: StickerBookRow, k: nat): MasteryReward
    requires k < |row.amounts| && k < |row.loot| && k < |row.xp|
  {
    MasteryReward(row.amounts[k], row.xp[k], RewardOf(ctx, Some(row.loot[k])))
  }

  function MasteryRecord(ctx: Context, row: StickerBookRow): (r: MasteryChallenge)
    requires MasteryRowReadable(ctx, row)
    ensures |r.rewards| == Min3(|row.amounts|, |row.loot|, |row.xp|)
    ensures forall k :: 0 <= k < |r.rewards| ==> r.rewards[k] == MasteryRewardAt(ctx, row, k)
    ensures r.description.None? <==> Localized(ctx.localize, row.desc).None?
  {
    var n := Min3(|row.amounts|, |row.loot|, |row.xp|);
    var desc := Localized(ctx.localize, row.desc);
    MasteryChallenge(
      row.ref, Localized(ctx.localize, row.name),
      if desc.None? then None else Some(Replace(desc.value, Template, IntToString(row.amounts[|row.amounts| - 1]))),
      row.categoryType,
      seq(n, k requires 0 <= k < n => MasteryRewardAt(ctx, row, k)))
  }

  /** The last amount is substituted as plain `str`, without thousands separators. */
  lemma MasteryUsesLastAmount(ctx: Context, row: StickerBookRow, before: string, after: string)
    requires MasteryRowReadable(ctx, row)
    requires Localized(ctx.localize, row.desc) == Some(before + Template + after)
    requires '&' !in before && !Occurs(after, Template)
    ensures MasteryRecord(ctx, row).description == Some(before + IntToString(row.amounts[|row.amounts| - 1]) + after)
  {
    ReplaceOnce(before, Template, after, IntToString(row.amounts[|row.amounts| - 1]));
  }

  /** The body of the mastery loop for one row: rewards are the zip of the three arrays, then the description is filled in. */
  method MasteryEntry(ctx: Context, entry: StickerBookRow) returns (current: MasteryChallenge)
    requires MasteryRowReadable(ctx, entry)
    ensures current == MasteryRecord(ctx, entry)
  {
    hide Replace, Grouped, IntToString, GetLootType;
    current := MasteryChallenge(
      entry.ref, Localized(ctx.localize, entry.name), Localized(ctx.localize, entry.desc), entry.categoryType, []);
    var n := Min3(|entry.amounts|, |entry.loot|, |entry.xp|);
    for j := 0 to n
      invariant |current.rewards| == j
      invariant forall k :: 0 <= k < j ==> current.rewards[k] == MasteryRewardAt(ctx, entry, k)
      invariant current.altId == entry.ref && current.category == entry.categoryType
      invariant current.name == Localized(ctx.localize, entry.name) && current.description == Localized(ctx.localize, entry.desc)
    {
      var reward := MasteryReward(entry.amounts[j], entry.xp[j], RewardOf(ctx, Some(entry.loot[j])));
      current := current.(rewards := current.rewards + [reward]);
    }
    if current.description.Some? {
      var amount := IntToString(entry.amounts[|entry.amounts| - 1]);
      current := current.(description := Some(Replace(current.description.value, Template, amount)));
    }
  }

  /** MasteryChallenges.Table. */
  method MasteryTable(ctx: Context, table: Option<seq<StickerBookRow>>, challenges: seq<MasteryChallenge>)
    returns (out: seq<MasteryChallenge>)
    requires table.Some? ==> forall row <- table.value :: MasteryRowReadable(ctx, row)
    ensures table.None? ==> out == challenges
    ensures table.Some? ==> Extends(challenges, out, |table.value|)
    ensures table.Some? ==> forall k :: 0 <= k < |table.value| ==> out[|challenges| + k] == MasteryRecord(ctx, table.value[k])
  {
    hide MasteryRecord, MasteryRowReadable;
    out := challenges;
    if table.None? {
      return;
    }
    var rows := table.value;
    for i := 0 to |rows|
      invariant Extends(challenges, out, i)
      invariant forall k :: 0 <= k < i ==> out[|challenges| + k] == MasteryRecord(ctx, rows[k])
    {
      var current := MasteryEntry(ctx, rows[i]);
      out := out + [current];
    }
  }

  // ----- Turbo challenges (mp/petwatchturbotable.csv) -----

  datatype TurboRow = TurboRow(
    ref: Option<string>, phaseNum: Option<int>, phaseTime: Option<int>, bonusTimeMax: Option<int>,
    charmID: Option<int>, challengeDesc: Option<string>)

  datatype TurboChallenge = TurboChallenge(
    altId: Option<string>, phase: Option<int>, description: Option<string>, phaseTime: Option<int>,
    maxBonusTime: Option<int>, charmAltId: Option<string>)

  const CharmPrefix: string := "cos_"

  function TurboRecord(ctx: Context, row: TurboRow): (r: TurboChallenge)
    ensures r.charmAltId.None? <==> row.charmID.None?
    ensures row.charmID.Some? ==> StartsWith(r.charmAltId.value, CharmPrefix)
    ensures r.altId == row.ref && r.phase == row.phaseNum && r.description == Localized(ctx.localize, row.challengeDesc)
  {
    TurboChallenge(
      row.ref, row.phaseNum, Localized(ctx.localize, row.challengeDesc), row.phaseTime, row.bonusTimeMax,
      if row.charmID.None? then None else Some(CharmPrefix + IntToString(row.charmID.value)))
  }

  /** The charm id reads back from `charmAltId` by dropping `cos_`. */
  lemma CharmAltIdRoundTrip(ctx: Context, row: TurboRow)
    requires row.charmID.Some? && row.charmID.value >= 0
    ensures ParseNat(TurboRecord(ctx, row).charmAltId.value[|CharmPrefix|..]) == Some(row.charmID.value)
  {
    var n: nat := row.charmID.value;
    assert TurboRecord(ctx, row).charmAltId.value[|CharmPrefix|..] == NatToString(n);
    ParseNatToString(n);
  }

  /** TurboChallenges.Table. */
  method TurboTable(ctx: Context, table: Option<seq<TurboRow>>, challenges: seq<TurboChallenge>)
    returns (out: seq<TurboChallenge>)
    ensures table.None? ==> out == challenges
    ensures table.Some? ==> Extends(challenges, out, |table.value|)
    ensures table.Some? ==> forall k :: 0 <= k < |table.value| ==> out[|challenges| + k] == TurboRecord(ctx, table.value[k])
  {
    hide TurboRecord;
    out := challenges;
    if table.None? {
      return;
    }
    var rows := table.value;
    for i := 0 to |rows|
      invariant Extends(challenges, out, i)
      invariant forall k :: 0 <= k < i ==> out[|challenges| + k] == TurboRecord(ctx, rows[k])
    {
      out := out + [TurboRecord(ctx, rows[i])];
    }
  }

  // ----- Miscellaneous challenges (misc_challenges.csv) -----

  datatype MiscRow = MiscRow(
    ref: Option<string>, name: Option<string>, desc: Option<string>, detailDesc: Option<string>,
    amount: Option<int>, loot: Option<int>)

  datatype MiscChallenge = MiscChallenge(
    altId: Option<string>, name: Option<string>, description: Option<string>, rewards: seq<LootReward>)

  /** The `desc` text, else the `detailDesc` text, else None. */
  function MiscDescription(ctx: Context, row: MiscRow): (d: Option<string>)
    ensures d.None? <==> Localized(ctx.localize, row.desc).None? && Localized(ctx.localize, row.detailDesc).None?
    ensures Localized(ctx.localize, row.desc).Some? ==> d == Localized(ctx.localize, row.desc)
  {
    if Localized(ctx.localize, row.desc).Some? then Localized(ctx.localize, row.desc)
    else Localized(ctx.localize, row.detailDesc)
  }

  function MiscRecord(ctx: Context, row: MiscRow): (r: MiscChallenge)
    ensures r.description.None? <==> MiscDescription(ctx, row).None?
    ensures row.amount.None? ==> r.description == MiscDescription(ctx, row)
    ensures r.rewards == [LootReward(row.loot, GetLootType(ctx, row.loot))]
  {
    var desc := MiscDescription(ctx, row);
    MiscChallenge(
      row.ref, Localized(ctx.localize, row.name),
      if desc.Some? && row.amount.Some? then Some(Replace(desc.value, Template, Grouped(row.amount.value))) else desc,
      [RewardOf(ctx, row.loot)])
  }

  /** A row with no `desc` text falls back to `detailDesc`, and the amount fills that text's `&&1`. */
  lemma MiscFallback(ctx: Context, row: MiscRow, before: string, after: string)
    requires Localized(ctx.localize, row.desc).None? && row.amount.Some?
    requires Localized(ctx.localize, row.detailDesc) == Some(before + Template + after)
    requires '&' !in before && !Occurs(after, Template)
    ensures MiscRecord(ctx, row).description == Some(before + Grouped(row.amount.value) + after)
  {
    ReplaceOnce(before, Template, after, Grouped(row.amount.value));
  }

  /**
   * The body of the miscellaneous loop for one row: the record is appended with the `desc` or
   * `detailDesc` text, and its description is rewritten only when both it and the amount exist.
   */
  method AppendMisc(ctx: Context, challenges: seq<MiscChallenge>, entry: MiscRow) returns (out: seq<MiscChallenge>)
    ensures out == challenges + [MiscRecord(ctx, entry)]
  {
    hide Replace, Grouped, IntToString, GetLootType;
    var desc: Option<string>;
    var d := Localized(ctx.localize, entry.desc);
    if d.Some? {
      desc := d;
    } else {
      d := Localized(ctx.localize, entry.detailDesc);
      if d.Some? {
        desc := d;
      } else {
        desc := None;
      }
    }
    out := challenges + [MiscChallenge(entry.ref, Localized(ctx.localize, entry.name), desc, [RewardOf(ctx, entry.loot)])];
    if desc.None? {
      return;
    }
    if entry.amount.Some? {
      var last := out[|out| - 1];
      var filled := last.(description := Some(Replace(desc.value, Template, Grouped(entry.amount.value))));
      ReplaceLast(challenges, last, filled);
      out := out[|out| - 1 := filled];
    }
  }

  /** MiscellaneousChallenges.Table. */
  method MiscTable(ctx: Context, table: Option<seq<MiscRow>>, challenges: seq<MiscChallenge>)
    returns (out: seq<MiscChallenge>)
    ensures table.None? ==> out == challenges
    ensures table.Some? ==> Extends(challenges, out, |table.value|)
    ensures table.Some? ==> forall k :: 0 <= k < |table.value| ==> out[|challenges| + k] == MiscRecord(ctx, table.value[k])
  {
    hide MiscRecord;
    out := challenges;
    if table.None? {
      return;
    }
    var rows := table.value;
    for i := 0 to |rows|
      invariant Extends(challenges, out, i)
      invariant forall k :: 0 <= k < i ==> out[|challenges| + k] == MiscRecord(ctx, rows[k])
    {
      out := AppendMisc(ctx, out, rows[i]);
    }
  }

  // ----- Seasonal challenges (mp/t9_seasonal_challenges.csv) -----

  datatype SeasonalRow = SeasonalRow(
    challengeID: Option<int>, challengeRef: Option<string>, seasonNum: Option<int>,
    title: Option<string>, description: Option<string>, levelGate: Option<int>,
    isMastery: Option<int>, isT9Exclusive: Option<int>,
    tier1Quantity: Option<int>, tier1XP: Option<int>,
    tier2Quantity: Option<int>, tier2XP: Option<int>,
    tier3Quantity: Option<int>, tier3XP: Option<int>,
    tier4Quantity: Option<int>, tier4XP: Option<int>,
    tier5Quantity: Option<int>, tier5XP: Option<int>,
    callingCard: Option<string>)

  /** The quantity and XP cells of one tier. */
  datatype TierColumn = TierColumn(quantity: Option<int>, xp: Option<int>)

  datatype Tier = Tier(amount: int, xp: Option<int>)

  datatype SeasonalChallenge = SeasonalChallenge(
    id: Option<int>, altId: Option<string>, name: Option<string>, description: Option<string>,
    season: Option<int>, image: Option<string>, levelGate: Option<int>, t9Exclusive: bool, mastery: bool,
    tiers: seq<Tier>)

  /** The five tier columns in order. */
  function TierColumns(row: SeasonalRow): (cols: seq<TierColumn>)
    ensures |cols| == 5
  {
    [TierColumn(row.tier1Quantity, row.tier1XP), TierColumn(row.tier2Quantity, row.tier2XP),
     TierColumn(row.tier3Quantity, row.tier3XP), TierColumn(row.tier4Quantity, row.tier4XP),
     TierColumn(row.tier5Quantity, row.tier5XP)]
  }

  function TierOf(col: TierColumn): seq<Tier> {
    if col.quantity.Some? then [Tier(col.quantity.value, col.xp)] else []
  }

  /** The tiers of the columns whose quantity is present, in column order. */
  function PresentTiers(cols: seq<TierColumn>): (tiers: seq<Tier>)
    ensures |tiers| <= |cols|
  {
    if cols == [] then [] else PresentTiers(cols[..|cols| - 1]) + TierOf(cols[|cols| - 1])
  }

  /** The quantity of the last column whose quantity is present. */
  function LastPresentAmount(cols: seq<TierColumn>): Option<int> {
    if cols == [] then None
    else if cols[|cols| - 1].quantity.Some? then cols[|cols| - 1].quantity
    else LastPresentAmount(cols[..|cols| - 1])
  }

  /** The last present amount is the amount of the last tier. */
  lemma {:induction false} LastPresentIsLastTier(cols: seq<TierColumn>)
    ensures LastPresentAmount(cols).Some? <==> PresentTiers(cols) != []
    ensures PresentTiers(cols) != [] ==> LastPresentAmount(cols).value == PresentTiers(cols)[|PresentTiers(cols)| - 1].amount
  {
    if cols != [] {
      LastPresentIsLastTier(cols[..|cols| - 1]);
    }
  }

  /** Any present quantity makes the last present amount exist. */
  lemma {:induction false} PresentMakesLast(cols: seq<TierColumn>, k: nat)
    requires k < |cols| && cols[k].quantity.Some?
    ensures LastPresentAmount(cols).Some?
  {
    if k < |cols| - 1 && cols[|cols| - 1].quantity.None? {
      PresentMakesLast(cols[..|cols| - 1], k);
    }
  }

  /** The tiers of five columns are the concatenation of the columns' tiers. */
  lemma FiveColumnTiers(cols: seq<TierColumn>)
    requires |cols| == 5
    ensures PresentTiers(cols) == TierOf(cols[0]) + TierOf(cols[1]) + TierOf(cols[2]) + TierOf(cols[3]) + TierOf(cols[4])
  {
    assert cols[..4][..3] == cols[..3] && cols[..3][..2] == cols[..2] && cols[..2][..1] == cols[..1] && cols[..1][..0] == [];
    assert PresentTiers(cols[..1]) == TierOf(cols[0]);
    assert PresentTiers(cols[..2]) == PresentTiers(cols[..1]) + TierOf(cols[1]);
    assert PresentTiers(cols[..3]) == PresentTiers(cols[..2]) + TierOf(cols[2]);
    assert PresentTiers(cols[..4]) == PresentTiers(cols[..3]) + TierOf(cols[3]);
    assert cols[..5] == cols;
  }

  /** Of five columns, the last one with a quantity gives the last present amount. */
  lemma FiveColumnLast(cols: seq<TierColumn>)
    requires |cols| == 5
    ensures LastPresentAmount(cols)
      == if cols[4].quantity.Some? then cols[4].quantity else if cols[3].quantity.Some? then cols[3].quantity
         else if cols[2].quantity.Some? then cols[2].quantity else if cols[1].quantity.Some? then cols[1].quantity
         else cols[0].quantity
  {
    assert cols[..4][..3] == cols[..3] && cols[..3][..2] == cols[..2] && cols[..2][..1] == cols[..1] && cols[..1][..0] == [];
    assert LastPresentAmount(cols[..1]) == cols[0].quantity;
    assert LastPresentAmount(cols[..2]) == if cols[1].quantity.Some? then cols[1].quantity else cols[0].quantity;
    assert LastPresentAmount(cols[..3]) == if cols[2].quantity.Some? then cols[2].quantity else LastPresentAmount(cols[..2]);
    assert LastPresentAmount(cols[..4]) == if cols[3].quantity.Some? then cols[3].quantity else LastPresentAmount(cols[..3]);
    assert cols[..5] == cols;
  }

  /** Substitution raises when a tier is present but the description text is not. */
  predicate SeasonalRowReadable(ctx: Context, row: SeasonalRow) {
    LastPresentAmount(TierColumns(row)).Some? ==> Localized(ctx.localize, row.description).Some?
  }

  function SeasonalRecord(ctx: Context, row: SeasonalRow): (r: SeasonalChallenge)
    requires SeasonalRowReadable(ctx, row)
    ensures r.tiers == PresentTiers(TierColumns(row))
    ensures r.t9Exclusive == Truthy(row.isT9Exclusive) && r.mastery == Truthy(row.isMastery)
  {
    var desc := Localized(ctx.localize, row.description);
    var last := LastPresentAmount(TierColumns(row));
    SeasonalChallenge(
      row.challengeID, row.challengeRef, Localized(ctx.localize, row.title),
      if last.None? then desc else Some(Replace(desc.value, Template, Grouped(last.value))),
      row.seasonNum, row.callingCard, row.levelGate, Truthy(row.isT9Exclusive), Truthy(row.isMastery),
      PresentTiers(TierColumns(row)))
  }

  /** The description is the original text filled with the last tier's grouped amount, or the text itself without tiers. */
  lemma SeasonalDescription(ctx: Context, row: SeasonalRow)
    requires SeasonalRowReadable(ctx, row)
    ensures PresentTiers(TierColumns(row)) != [] ==> Localized(ctx.localize, row.description).Some?
    ensures var r := SeasonalRecord(ctx, row);
      if r.tiers == [] then r.description == Localized(ctx.localize, row.description)
      else r.description == Some(Replace(Localized(ctx.localize, row.description).value, Template, Grouped(r.tiers[|r.tiers| - 1].amount)))
  {
    LastPresentIsLastTier(TierColumns(row));
  }

  /** One `if (amount := entry.get("tierNQuantity")) is not None` block, applied to the last record. */
  method ApplyTier(current: SeasonalChallenge, desc: Option<string>, col: TierColumn) returns (next: SeasonalChallenge)
    requires col.quantity.Some? ==> desc.Some?
    ensures next == current.(
      tiers := current.tiers + TierOf(col),
      description := if col.quantity.Some? then Some(Replace(desc.value, Template, Grouped(col.quantity.value))) else current.description)
  {
    next := current;
    if col.quantity.Some? {
      next := next.(tiers := next.tiers + [Tier(col.quantity.value, col.xp)]);
      next := next.(description := Some(Replace(desc.value, Template, Grouped(col.quantity.value))));
    }
  }

  /** The body of the seasonal loop for one row: the record, then the five tier blocks. */
  method SeasonalEntry(ctx: Context, entry: SeasonalRow) returns (current: SeasonalChallenge)
    requires SeasonalRowReadable(ctx, entry)
    ensures current == SeasonalRecord(ctx, entry)
  {
    hide Replace, Grouped, PresentTiers, LastPresentAmount, Localized, Truthy;
    var desc := Localized(ctx.localize, entry.description);
    FiveColumnTiers(TierColumns(entry));
    FiveColumnLast(TierColumns(entry));
    current := SeasonalChallenge(
      entry.challengeID, entry.challengeRef, Localized(ctx.localize, entry.title), desc,
      entry.seasonNum, entry.callingCard, entry.levelGate, Truthy(entry.isT9Exclusive), Truthy(entry.isMastery), []);
    current := ApplyTier(current, desc, TierColumn(entry.tier1Quantity, entry.tier1XP));
    current := ApplyTier(current, desc, TierColumn(entry.tier2Quantity, entry.tier2XP));
    current := ApplyTier(current, desc, TierColumn(entry.tier3Quantity, entry.tier3XP));
    current := ApplyTier(current, desc, TierColumn(entry.tier4Quantity, entry.tier4XP));
    current := ApplyTier(current, desc, TierColumn(entry.tier5Quantity, entry.tier5XP));
  }

  /** SeasonalChallenges.Table: five tier blocks, each appending its tier and refilling the description from the original text. */
  method SeasonalTable(ctx: Context, table: Option<seq<SeasonalRow>>, challenges: seq<SeasonalChallenge>)
    returns (out: seq<SeasonalChallenge>)
    requires table.Some? ==> forall row <- table.value :: SeasonalRowReadable(ctx, row)
    ensures table.None? ==> out == challenges
    ensures table.Some? ==> Extends(challenges, out, |table.value|)
    ensures table.Some? ==> forall k :: 0 <= k < |table.value| ==> out[|challenges| + k] == SeasonalRecord(ctx, table.value[k])
  {
    hide SeasonalRecord, SeasonalRowReadable;
    out := challenges;
    if table.None? {
      return;
    }
    var rows := table.value;
    for i := 0 to |rows|
      invariant Extends(challenges, out, i)
      invariant forall k :: 0 <= k < i ==> out[|challenges| + k] == SeasonalRecord(ctx, rows[k])
    {
      var current := SeasonalEntry(ctx, rows[i]);
      out := out + [current];
    }
  }

  // ----- Progression rewards (mp/progression/t9_seasonal_progression_blueprint_rewards.csv) -----

  datatype ProgressionRow = ProgressionRow(seasonDispNum: Option<int>, seasonRank: Option<int>, blueprintID: Option<int>)

  datatype ProgressionReward = ProgressionReward(season: Option<int>, rank: Option<int>, rewards: seq<LootReward>)

  function ProgressionRecord(ctx: Context, row: ProgressionRow): (r: ProgressionReward)
    ensures r.rewards == [LootReward(row.blueprintID, GetLootType(ctx, row.blueprintID))]
    ensures r.season == row.seasonDispNum && r.rank == row.seasonRank
  {
    ProgressionReward(row.seasonDispNum, row.seasonRank, [RewardOf(ctx, row.blueprintID)])
  }

  /** ProgressionRewards.Table. */
  method ProgressionTable(ctx: Context, table: Option<seq<ProgressionRow>>, rewards: seq<ProgressionReward>)
    returns (out: seq<ProgressionReward>)
    ensures table.None? ==> out == rewards
    ensures table.Some? ==> Extends(rewards, out, |table.value|)
    ensures table.Some? ==> forall k :: 0 <= k < |table.value| ==> out[|rewards| + k] == ProgressionRecord(ctx, table.value[k])
  {
    hide ProgressionRecord;
    out := rewards;
    if table.None? {
      return;
    }
    var rows := table.value;
    for i := 0 to |rows|
      invariant Extends(rewards, out, i)
      invariant forall k :: 0 <= k < i ==> out[|rewards| + k] == ProgressionRecord(ctx, rows[k])
    {
      out := out + [ProgressionRecord(ctx, rows[i])];
    }
  }
}
