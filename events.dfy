/** XAssets/events.py: seasonal event challenges from mp/seasonal_event.csv. */
module Events {
  import opened Wrappers
  import opened Resolvers

  datatype SeasonalEventRow = SeasonalEventRow(
    id: Option<int>, eventId: Option<int>, lootId: Option<int>, challengeRef: Option<string>,
    isFinalReward: Option<int>, locationString: Option<string>, isIntroGift: Option<int>,
    isEarlyAccessGift: Option<int>)

  datatype EventChallenge = EventChallenge(
    id: Option<int>, altId: Option<string>, description: Option<string>, eventId: Option<int>,
    finalReward: bool, introGift: bool, earlyAccessGift: bool, rewards: seq<LootReward>)

  function EventRecord(ctx: Context, row: SeasonalEventRow): EventChallenge {
    EventChallenge(
      row.id, row.challengeRef, Localized(ctx.localize, row.locationString), row.eventId,
      Truthy(row.isFinalReward), Truthy(row.isIntroGift), Truthy(row.isEarlyAccessGift),
      [RewardOf(ctx, row.lootId)])
  }

  /** Every challenge has exactly one reward, the row's loot id with its type, even when that cell is empty. */
  lemma OneReward(ctx: Context, row: SeasonalEventRow)
    ensures var c := EventRecord(ctx, row);
      |c.rewards| == 1 && c.rewards[0].id == row.lootId && c.rewards[0].lootType == GetLootType(ctx, row.lootId)
    ensures row.lootId.None? ==> EventRecord(ctx, row).rewards == [LootReward(None, None)]
  {
  }

  /** SeasonalEvents.Table: one challenge per row, in row order; a missing table leaves the list as it was. */
  method EventTable(ctx: Context, table: Option<seq<SeasonalEventRow>>, challenges: seq<EventChallenge>)
    returns (out: seq<EventChallenge>)
    ensures table.None? ==> out == challenges
    ensures table.Some? ==> Extends(challenges, out, |table.value|)
    ensures table.Some? ==> forall k :: 0 <= k < |table.value| ==> out[|challenges| + k] == EventRecord(ctx, table.value[k])
  {
    hide EventRecord;
    out := challenges;
    if table.None? {
      return;
    }
    var rows := table.value;
    for i := 0 to |rows|
      invariant Extends(challenges, out, i)
      invariant forall k :: 0 <= k < i ==> out[|challenges| + k] == EventRecord(ctx, rows[k])
    {
      out := out + [EventRecord(ctx, rows[i])];
    }
  }
}
