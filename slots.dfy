/**
 * The numbered item columns (`item1`, `item2`, ...) that several tables read with
 * `for i in range(1, n + 1): entry.get(f"item{i}")`, skipping empty cells.
 */
module Slots {
  import opened Wrappers
  import opened Resolvers

  /** `entry.get(f"item{i}")`: slot i counted from 1, None past the last column. */
  function Slot(slots: seq<Option<int>>, i: int): Option<int> {
    if 1 <= i <= |slots| then slots[i - 1] else None
  }

  /** The rewards of slots 1..n, skipping empty slots and keeping slot order. */
  function ItemsOf(ctx: Context, slots: seq<Option<int>>, n: int): seq<LootReward>
    decreases n
  {
    if n < 1 then []
    else ItemsOf(ctx, slots, n - 1) + (if Slot(slots, n).Some? then [RewardOf(ctx, Slot(slots, n))] else [])
  }

  /** The ids of the present slots, in order. */
  function Present(slots: seq<Option<int>>): (ids: seq<int>)
    ensures |ids| <= |slots|
    decreases |slots|
  {
    if slots == [] then []
    else Present(slots[..|slots| - 1]) + (if slots[|slots| - 1].Some? then [slots[|slots| - 1].value] else [])
  }

  function Rewards(ctx: Context, ids: seq<int>): (r: seq<LootReward>)
    ensures |r| == |ids|
  {
    seq(|ids|, k requires 0 <= k < |ids| => RewardOf(ctx, Some(ids[k])))
  }

  function Min(a: int, b: int): int {
    if a < b then a else b
  }

  /**
   * A count of n reads exactly the present ids among the first n columns (none for n < 1), each
   * with its loot type; a count larger than the number of columns reads no more.
   */
  lemma {:induction false} ItemsArePresentSlots(ctx: Context, slots: seq<Option<int>>, n: int)
    ensures ItemsOf(ctx, slots, n) == Rewards(ctx, Present(slots[..Min(if n < 0 then 0 else n, |slots|)]))
    decreases n
  {
    if n >= 1 {
      ItemsArePresentSlots(ctx, slots, n - 1);
      if n <= |slots| {
        assert slots[..n][..n - 1] == slots[..n - 1];
        assert slots[..n][n - 1] == Slot(slots, n);
      }
    }
  }

  /** Reading more slots never loses the rewards already read. */
  lemma {:induction false} ItemsGrow(ctx: Context, slots: seq<Option<int>>, i: int, n: int)
    requires i <= n
    ensures ItemsOf(ctx, slots, i) <= ItemsOf(ctx, slots, n)
    ensures |ItemsOf(ctx, slots, i)| <= |ItemsOf(ctx, slots, n)|
    decreases n - i
  {
    if i < n {
      ItemsGrow(ctx, slots, i, n - 1);
      var before, after := ItemsOf(ctx, slots, i), ItemsOf(ctx, slots, n - 1);
      if n >= 1 {
        assert after <= ItemsOf(ctx, slots, n);
      }
      assert before == after[..|before|];
    }
  }
}
