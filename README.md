# Modern Warfare XAssets compiler — a verified model

This project models the core of the Call of Duty: Modern Warfare asset compiler. The compiler reads the game's
string tables (CSV files and a localization dump) and writes JSON records for a tracker website. The
model covers three layers.

- **The resolvers** of `ModernWarfare` (`modernwarfare.py`). LoadLocalize filters the localization map.
  GetLootRarity, GetLootType, GetLootSeason, GetOperatorID, GetWeaponClass, GetAttachmentCategory,
  GetCamoCategory, GetAttribute, GetGameTypeCategory, GetPlatformExclusivity and GetTitleAvailability
  turn raw ids and references into display values.
- **The XAssets table compilers** (`XAssets/*.py`). These are officer, weapon-unlock, weekly BR/MP,
  mastery, turbo, miscellaneous, seasonal and progression challenges, missions (quests, intel, mission
  items, BR missions), bundles, DLC, kiosks, events, reticles, vehicle horns and Cold War unlock items.
  Each compiler walks its rows and appends, or joins into, a list of records.
- **The database pass** (`database.py`). DBBattlePasses, DBBundles, DBLoot, DBOperators and DBWeapons
  re-read the JSON the compilers wrote and clean each record: they filter, pop keys, drop nulls and
  attach slugs and animation flags. They also collect every image. `Database.Compile` then writes the
  distinct images in chunks of fewer than 30000 characters.

## How the code is modelled

- **Table compilers are methods.** Each has a `while`/`for` loop mirroring the Python loop and is proved
  against a function that gives the record of one row: `XRecord`, or a fold such as `QuestFold` or
  `BundleFold` where a row changes an earlier record.
- **The database compilers are a class.** `Database.Database` has the `images` (the Python `dbImages`)
  and `count` fields. Its methods append to them and are proved against per-file functions
  (`Passes`, `Bundles`, `LootAll`, `Operators`, `Weapons`). Lemmas beside those functions state:
  - which records survive (`…Exactly`);
  - which keys each record loses or keeps (`…Trimmed`, `…FieldKept`, `…NullsDropped`).
- **JSON records** are `map<string, Json>`. A key that is absent and a key holding `null` are told
  apart, as the Python `dict.get`/`pop` calls do.
- **Helpers from `Utility` become parameters** (`Env`, `Context`, function arguments), because their
  code is not part of this model. These are ReadCSV, ReadFile, FileExists, AnimateSprite, Sluggify,
  SortList, PrettyTime, StripColorCodes and StripButtonCodes.
- **A Python crash becomes a precondition.** Examples are `replace` on a `None` description, `[-1]` on
  an empty list, and `pop` of a missing key without a default.

## Model

| member | source | states |
|---|---|---|
| Resolvers.Localized | ModernWarfare/modernwarfare.py:249-277 | `localize.get(key)`: an empty key cell gives None; otherwise the filtered localization value, None when the key is unknown |
| Resolvers.ImageOrNone | ModernWarfare/XAssets/unlockItems.py:57-59 | an image cell becomes None exactly when it is empty or the `placeholder_x` image; any other image is kept unchanged |
| Resolvers.MatchesAny | ModernWarfare/modernwarfare.py:255-271 | the loop over one placeholder list reports a match exactly when some rule matches (whole, begins-with or ends-with, case-insensitively) |
| Resolvers.LoadLocalize | ModernWarfare/modernwarfare.py:241-279 | the filtered map has the same keys; a None value stays None, a placeholder becomes None, any other value has colour codes then button codes stripped |
| Resolvers.PlaceholderWholeMatch | ModernWarfare/modernwarfare.py:255-259 | for every rule and value, a whole-value rule matches exactly when both agree after lower-casing; a value of another length never matches |
| Resolvers.PlaceholderNotInside | ModernWarfare/modernwarfare.py:255-259 | a value that contains a whole-value rule with more text around it is not a placeholder |
| Resolvers.RarityKey | ModernWarfare/modernwarfare.py:281-284 | the rarity key is always a `LOOT_MP/QUALITY_` key |
| Resolvers.GetLootRarity | ModernWarfare/modernwarfare.py:281-284 | a rarity resolves to the localized text of its quality key, None when that key is not localized |
| Resolvers.RarityKeysDistinct | ModernWarfare/modernwarfare.py:281-284 | distinct rarity values give distinct keys, and an empty rarity never gives a numbered key |
| Resolvers.GetLootType | ModernWarfare/modernwarfare.py:289-290 | an empty id has no loot type |
| Resolvers.ScanRangesFirst | ModernWarfare/modernwarfare.py:292-302 | the first loot-master range containing the id decides the range scan |
| Resolvers.ScanRangesMiss | ModernWarfare/modernwarfare.py:292-302 | the range scan misses exactly when no range contains the id |
| Resolvers.ScanSourcesFirst | ModernWarfare/modernwarfare.py:304-376 | the first item-source row for the id that carries a known ref type decides the type |
| Resolvers.ScanSourcesNone | ModernWarfare/modernwarfare.py:304-376 | with no decisive item-source row the type is None |
| Resolvers.RangeDecides | ModernWarfare/modernwarfare.py:292-302 | an id in a range whose type key is not the placeholder gets that key's localized text, whatever the item sources say |
| Resolvers.PlaceholderFallsThrough | ModernWarfare/modernwarfare.py:299-300 | a placeholder range stops the range scan only, and the item sources then decide |
| Resolvers.UnknownIdHasNoType | ModernWarfare/modernwarfare.py:286-376 | an id in no range and no item source has no type |
| Resolvers.RangeBeatsItemSource | ModernWarfare/modernwarfare.py:292-302 | a concrete example: range [1,100] wins over an item-source row for id 50 |
| Resolvers.GetLootSeason | ModernWarfare/modernwarfare.py:381-385 | license 0 has no season, license 99 is "Unreleased" |
| Resolvers.SeasonOffsets | ModernWarfare/modernwarfare.py:386-396 | licenses 1000n, 1000n+1 and 1000n+2 all resolve to the season n text |
| Resolvers.SeasonOtherwiseNone | ModernWarfare/modernwarfare.py:392-394 | any other license (not 99, remainder above 2) has no season |
| Resolvers.SeasonOnlyForSeasonCodes | ModernWarfare/modernwarfare.py:378-396 | a season is found only for 99 or a nonzero license with remainder at most 2 (the converse of the two lemmas above) |
| Resolvers.SeasonExamples | ModernWarfare/modernwarfare.py:378-396 | concrete examples of SeasonOffsets and SeasonOtherwiseNone: 4000, 4001 and 4002 agree, 4003 has no season, 6000 and 6001 are season 6 |
| Resolvers.GetOperatorID | ModernWarfare/modernwarfare.py:401-412 | the three sentinel references map to 29999, 29998 and 29997 |
| Resolvers.OperatorIdFirstMatch | ModernWarfare/modernwarfare.py:414-416 | the first operator row with the reference gives the id; no such row gives None |
| Resolvers.CategoryFirstMatch | ModernWarfare/modernwarfare.py:418-437 | category lookups: None exactly when no row has the reference, else the first matching row's name |
| Resolvers.CategoryResolvers | ModernWarfare/modernwarfare.py:418-437 | GetWeaponClass gives the first matching weapon-class name localized, and GetCamoCategory gives None without a matching row |
| Resolvers.FixedLookup | ModernWarfare/modernwarfare.py:439-507 | a reference outside the fixed table gives None; one inside gives its key's localized text |
| Resolvers.GetAttribute | ModernWarfare/modernwarfare.py:439-487 | an attribute resolves only for a reference in the attribute table |
| Resolvers.GetGameTypeCategory | ModernWarfare/modernwarfare.py:489-507 | a game-type category resolves only for a reference in its table |
| Resolvers.SixteenBitAttribute | ModernWarfare/modernwarfare.py:457 | a concrete example of GetAttribute: "sixteenBit" resolves to the 16-bit tracer text; a near-miss reference does not resolve |
| Resolvers.GetPlatformExclusivity | ModernWarfare/modernwarfare.py:509-523 | the result, when present, is one of battlenet, playstation and xbox |
| Resolvers.PlatformRoundTrip | ModernWarfare/modernwarfare.py:509-523 | a resolved platform maps back to the reference that produced it |
| Resolvers.GetTitleAvailability | ModernWarfare/modernwarfare.py:525-536 | an empty id gets the default availability |
| Resolvers.AvailabilityFirstMatch | ModernWarfare/modernwarfare.py:528-534 | the first item source with the marketplace id decides the three flags |
| Resolvers.AvailabilityDefault | ModernWarfare/modernwarfare.py:536 | with no matching item source the default (no Cold War, Warzone, Modern Warfare) is returned |
| Slots.ItemsArePresentSlots | ModernWarfare/XAssets/bundles.py:151-171 | reading `numItems` slots yields exactly the non-empty ones among the first `numItems`, each with its loot type |
| Slots.ItemsGrow | ModernWarfare/XAssets/bundles.py:151-171 | reading more slots keeps the items already read as a prefix, so never yields fewer items |
| Text.UngroupInt | ModernWarfare/XAssets/challenges.py:174-175 | the thousands-grouped amount, with its commas removed, is the plain decimal number |
| Text.ParseNatToString | ModernWarfare/XAssets/challenges.py:170 | `int()` of a number's decimal text gives the number back |
| Text.FindSpec | ModernWarfare/XAssets/challenges.py:272-273 | `str.find` returns the first occurrence, or none when there is none |
| Text.SegmentNumberRoundTrip | ModernWarfare/XAssets/challenges.py:272-273 | the number after a marker up to the next `_` is read back exactly |
| Text.ReplaceOnce | ModernWarfare/XAssets/challenges.py:174-175 | replacing a template that occurs once substitutes that occurrence and keeps the rest |
| Challenges.OfficerRecord | ModernWarfare/XAssets/challenges.py:177-187 | the record keeps ref, xp and name; it has a season exactly when the ref starts with the officer prefix |
| Challenges.OfficerSeasonFromRef | ModernWarfare/XAssets/challenges.py:169-172 | the season is the number between the prefix and the next `_` |
| Challenges.OfficerAmountGrouped | ModernWarfare/XAssets/challenges.py:174-175 | the description has the template replaced by the grouped amount, which ungroups to the amount |
| Challenges.OfficerTable | ModernWarfare/XAssets/challenges.py:158-189 | a missing table leaves the list; otherwise one record per row is appended in order |
| Challenges.WeaponUnlockRecord | ModernWarfare/XAssets/challenges.py:215-242 | the rewards are the typed loot then the xp; the description exists exactly when its text does |
| Challenges.WeaponUnlockTable | ModernWarfare/XAssets/challenges.py:208-242 | missing table: unchanged; else one record per row in order |
| Challenges.WeeklyRewards | ModernWarfare/XAssets/challenges.py:294-297 | a weekly record keeps ref and start time and carries the row's loot, typed, as its only reward when present |
| Challenges.WeeklyRefDecoding | ModernWarfare/XAssets/challenges.py:272-273 | a ref `…season_<s>_…week_<w>_…` decodes to season s and week w |
| Challenges.WeeklyRecordDecodes | ModernWarfare/XAssets/challenges.py:272-273 | a row with such a ref is compilable and its record has season s and week w |
| Challenges.AppendWeekly | ModernWarfare/XAssets/challenges.py:269-299 | one loop body appends exactly the row's record |
| Challenges.WeeklyTable | ModernWarfare/XAssets/challenges.py:259-299 | the weekly BR and MP tables (line 316-356 is the same code): missing table unchanged, else one record per row |
| Challenges.MasteryRecord | ModernWarfare/XAssets/challenges.py:398-406 | the rewards pair amounts, loot and xp element-wise up to the shortest list |
| Challenges.MasteryUsesLastAmount | ModernWarfare/XAssets/challenges.py:408-409 | the description is filled with the last amount |
| Challenges.MasteryEntry | ModernWarfare/XAssets/challenges.py:383-411 | the loop body builds exactly the row's record |
| Challenges.MasteryTable | ModernWarfare/XAssets/challenges.py:373-411 | missing table unchanged, else one record per row |
| Challenges.TurboRecord | ModernWarfare/XAssets/challenges.py:440-450 | the charm altId exists exactly when the charm id does and starts with the charm prefix |
| Challenges.CharmAltIdRoundTrip | ModernWarfare/XAssets/challenges.py:446-448 | the charm id is recoverable from the charm altId |
| Challenges.TurboTable | ModernWarfare/XAssets/challenges.py:428-452 | missing table unchanged, else one record per row |
| Challenges.MiscDescription | ModernWarfare/XAssets/challenges.py:480-485 | the description falls back to the detail description, and is None only when both are missing |
| Challenges.MiscRecord | ModernWarfare/XAssets/challenges.py:478-507 | without an amount the description is the fallback text; the single reward is the typed loot |
| Challenges.MiscFallback | ModernWarfare/XAssets/challenges.py:480-485 | with an amount and only a detail description, that text is filled with the grouped amount |
| Challenges.AppendMisc | ModernWarfare/XAssets/challenges.py:478-507 | one loop body appends exactly the row's record |
| Challenges.MiscTable | ModernWarfare/XAssets/challenges.py:469-507 | missing table unchanged, else one record per row |
| Challenges.LastPresentIsLastTier | ModernWarfare/XAssets/challenges.py:552-585 | the last amount used for the description is the amount of the last tier appended |
| Challenges.PresentMakesLast | ModernWarfare/XAssets/challenges.py:552-585 | any tier with a quantity gives a last amount |
| Challenges.FiveColumnTiers | ModernWarfare/XAssets/challenges.py:552-585 | the tiers are the five columns' present tiers, in column order |
| Challenges.FiveColumnLast | ModernWarfare/XAssets/challenges.py:552-585 | the last amount is that of the highest-numbered column with a quantity |
| Challenges.SeasonalRecord | ModernWarfare/XAssets/challenges.py:534-585 | the tiers are the present tier columns; the T9-exclusive and mastery flags are the cells' truthiness |
| Challenges.SeasonalDescription | ModernWarfare/XAssets/challenges.py:552-585 | with tiers, the description is filled with the last tier's grouped amount; without, it is the raw text |
| Challenges.SeasonalEntry | ModernWarfare/XAssets/challenges.py:534-585 | the loop body builds exactly the row's record |
| Challenges.SeasonalTable | ModernWarfare/XAssets/challenges.py:524-587 | missing table unchanged, else one record per row |
| Challenges.ProgressionRecord | ModernWarfare/XAssets/challenges.py:614-628 | season and rank are copied and the blueprint is the single typed reward |
| Challenges.ProgressionTable | ModernWarfare/XAssets/challenges.py:604-630 | missing table unchanged, else one record per row |
| Missions.ObjectiveOf | ModernWarfare/XAssets/missions.py:144-165 | an objective keeps the ref, has no image, and has one reward exactly when the row has loot |
| Missions.MissionOf | ModernWarfare/XAssets/missions.py:121-143 | a new mission starts with the row's objective as its only objective |
| Missions.AddObjective | ModernWarfare/XAssets/missions.py:144-152 | a repeated name appends the objective to the last mission and changes nothing else |
| Missions.QuestFold | ModernWarfare/XAssets/missions.py:108-167 | after the rows, `last` is the last row's name and some mission exists |
| Missions.MissionCount | ModernWarfare/XAssets/missions.py:118-143 | one mission is started per row whose name differs from the previous row's |
| Missions.NonAdjacentRepeat | ModernWarfare/XAssets/missions.py:118-143 | a name that comes back after another name starts a new mission |
| Missions.OneObjectivePerRow | ModernWarfare/XAssets/missions.py:108-167 | the objectives of all missions, in order, are one per row |
| Missions.LastRowLastObjective | ModernWarfare/XAssets/missions.py:154-165 | the last row's objective is the last objective of the last mission |
| Missions.MissionSeason | ModernWarfare/XAssets/missions.py:128-130 | a nonzero season gives the season text, and season 0 gives none |
| Missions.ObjectiveAmount | ModernWarfare/XAssets/missions.py:162-165 | the objective description is the text with the amount substituted |
| Missions.QuestEntry | ModernWarfare/XAssets/missions.py:118-165 | one loop body does exactly one fold step |
| Missions.QuestTable | ModernWarfare/XAssets/missions.py:108-167 | missing table unchanged, else the fold of the rows |
| Missions.WithIntel | ModernWarfare/XAssets/missions.py:179-185 | joining intel changes only an objective's image |
| Missions.IntelLastMatchWins | ModernWarfare/XAssets/missions.py:179-185 | the last intel row with the objective's ref sets its image |
| Missions.IntelNoMatch | ModernWarfare/XAssets/missions.py:179-185 | without a matching row the objective is unchanged |
| Missions.ApplyIntel | ModernWarfare/XAssets/missions.py:179-185 | the inner loop computes the joined objective |
| Missions.IntelMission | ModernWarfare/XAssets/missions.py:177-185 | every objective of a mission is joined |
| Missions.IntelTable | ModernWarfare/XAssets/missions.py:169-187 | missing table unchanged; else the same number of missions, each with its objectives joined |
| Missions.MissionItemRecord | ModernWarfare/XAssets/missions.py:214-235 | a mission item has its typed id, the feature background and the operator skin as its only reward |
| Missions.MissionItemIDs | ModernWarfare/XAssets/missions.py:204-237 | missing table unchanged, else one record per row |
| Missions.BRMissionName | ModernWarfare/XAssets/missions.py:265-273 | the name is the title-cased title, else the title-cased map title, else None; timed is the timer flag |
| Missions.BREntry | ModernWarfare/XAssets/missions.py:262-278 | the loop body builds the row's record |
| Missions.BRMissionsTable | ModernWarfare/XAssets/missions.py:254-280 | missing table unchanged, else one record per row |
| Bundles.Price | ModernWarfare/XAssets/bundles.py:133-140 | a price exists exactly when the currency is COD Points and the amount is not the not-for-sale value |
| Bundles.LocalizedOr | ModernWarfare/XAssets/bundles.py:127-132 | a localized key wins, otherwise the default |
| Bundles.BundleRecord | ModernWarfare/XAssets/bundles.py:110-148 | a new bundle has its id and ref and no items yet |
| Bundles.AddTo | ModernWarfare/XAssets/bundles.py:151-171 | items go to the chosen list only |
| Bundles.AttachMore | ModernWarfare/XAssets/bundles.py:151-171 | attaching one more item extends the last bundle by that item |
| Bundles.BundleStep | ModernWarfare/XAssets/bundles.py:108-171 | a collection row adds no bundle, any other row adds one |
| Bundles.BundleCount | ModernWarfare/XAssets/bundles.py:97-173 | the number of bundles is the number of non-collection rows |
| Bundles.StepAll | ModernWarfare/XAssets/bundles.py:151-171 | one row adds exactly its present slots to the item lists |
| Bundles.ItemsConserved | ModernWarfare/XAssets/bundles.py:97-173 | every row's items, in order, end up in some bundle: none lost, none invented |
| Bundles.AppendSlots | ModernWarfare/XAssets/bundles.py:151-171 | the slot loop attaches exactly the present slots to the last bundle |
| Bundles.BundleEntry | ModernWarfare/XAssets/bundles.py:108-171 | the loop body does one step |
| Bundles.BundleIDs | ModernWarfare/XAssets/bundles.py:97-173 | missing table unchanged, else the fold of the rows |
| Dlc.ConsumableDefaults | ModernWarfare/XAssets/dlc.py:158-163 | a consumable gets rarity 0 and the consumable type when it has none; others keep their type and have no rarity |
| Dlc.CodPointsName | ModernWarfare/XAssets/dlc.py:134-145 | a COD Points pack is named with its grouped amount |
| Dlc.PlainName | ModernWarfare/XAssets/dlc.py:141-145 | any other pack keeps its title |
| Dlc.DlcEntry | ModernWarfare/XAssets/dlc.py:131-171 | the loop body builds the row's record |
| Dlc.DlcIDs | ModernWarfare/XAssets/dlc.py:123-173 | missing table unchanged, else one record per row |
| Events.OneReward | ModernWarfare/XAssets/events.py:60 | every event challenge has exactly one typed reward, even for an empty loot cell |
| Events.EventTable | ModernWarfare/XAssets/events.py:40-64 | missing table unchanged, else one record per row |
| Kiosks.KioskRecord | ModernWarfare/XAssets/kiosks.py:77 | the price is the cost times 100 |
| Kiosks.CostOrderKept | ModernWarfare/XAssets/kiosks.py:57-82 | across a compiled table, one item is cheaper than another exactly when its row costs less, and equal prices come exactly from equal costs |
| Kiosks.KioskIDs | ModernWarfare/XAssets/kiosks.py:57-82 | both kiosk tables (line 99-124 is the same code): missing table unchanged, else the old list followed by one record per row, in row order |
| Reticles.ReticleRecord | ModernWarfare/XAssets/reticles.py:67-84 | a reticle starts with its typed id, the reticle background and no name or image |
| Reticles.ReticleIDs | ModernWarfare/XAssets/reticles.py:57-86 | missing table unchanged, else one record per row |
| Reticles.Named | ModernWarfare/XAssets/reticles.py:98-106 | a joined row sets hidden and image and keeps the altId |
| Reticles.Joined | ModernWarfare/XAssets/reticles.py:98-106 | the join changes only name, description, hidden and image |
| Reticles.LastMatchWins | ModernWarfare/XAssets/reticles.py:98-106 | the last table row with the reticle's ref decides |
| Reticles.NoMatch | ModernWarfare/XAssets/reticles.py:98-106 | without a matching row the reticle is unchanged |
| Reticles.JoinReticle | ModernWarfare/XAssets/reticles.py:98-106 | the inner loop computes the join |
| Reticles.ReticleTable | ModernWarfare/XAssets/reticles.py:88-108 | missing table unchanged; else the same reticles, each joined |
| UnlockItems.UnlockFields | ModernWarfare/XAssets/unlockItems.py:47-62 | the type is the localized class name, a placeholder image becomes None, license 0 has no season |
| UnlockItems.UnlockTable | ModernWarfare/XAssets/unlockItems.py:37-64 | missing table unchanged, else one record per row |
| VehicleHorns.HornRecord | ModernWarfare/XAssets/vehicleHorns.py:72-90 | a horn starts with its typed id, the horn image and background and no name or unlock text |
| VehicleHorns.HornIDs | ModernWarfare/XAssets/vehicleHorns.py:62-92 | missing table unchanged, else one record per row |
| VehicleHorns.Named | ModernWarfare/XAssets/vehicleHorns.py:104-114 | a joined row keeps the altId and leaves no flavor |
| VehicleHorns.Joined | ModernWarfare/XAssets/vehicleHorns.py:104-114 | the join changes only name, flavor, unlock and hidden |
| VehicleHorns.LastMatchWins | ModernWarfare/XAssets/vehicleHorns.py:104-114 | the last table row with the horn's ref decides |
| VehicleHorns.NoMatch | ModernWarfare/XAssets/vehicleHorns.py:104-114 | without a matching row the horn is unchanged |
| VehicleHorns.UnlockDropsTemplate | ModernWarfare/XAssets/vehicleHorns.py:111-113 | the unlock text loses its leading template |
| VehicleHorns.JoinHorn | ModernWarfare/XAssets/vehicleHorns.py:104-114 | the inner loop computes the join |
| VehicleHorns.HornTable | ModernWarfare/XAssets/vehicleHorns.py:94-116 | missing table unchanged; else the same horns, each joined |
| Json.Get | ModernWarfare/database.py:94-103 | `dict.get`: a missing key reads as null |
| Json.DropIfNull | ModernWarfare/database.py:128-137 | a key is removed exactly when its value is null; nothing else changes |
| Json.DropNulls | ModernWarfare/database.py:128-137 | every listed key is removed exactly when null; other keys and all values kept |
| Json.Without | ModernWarfare/database.py:120-126 | the popped keys are gone and everything else is kept |
| Json.Released | ModernWarfare/database.py:303-304 | the season is dropped exactly when it is "Unreleased"; every other key and value is kept (the weapon pass at line 622-623 does the same) |
| Json.Objects | ModernWarfare/database.py:113-118 | a list of dictionaries is read element for element |
| Json.AvailabilityDropped | ModernWarfare/database.py:140-153 | `available` is removed exactly when it equals one of the two default maps |
| Json.CompiledAvailabilityKept | ModernWarfare/database.py:140-153 | an availability map as GetTitleAvailability builds it is never removed |
| Compiler.LocalizedJson | ModernWarfare/database.py:203-204 | a localized value is null exactly when the key has no text |
| Compiler.Finished | ModernWarfare/database.py:155-158 | a finished record has its slug, is animated when the sprite is, and is otherwise unchanged |
| DBBattlePasses.StripItems | ModernWarfare/database.py:61-67 | every item is stripped, and the count is kept |
| DBBattlePasses.PassesExactly | ModernWarfare/database.py:46-78 | the database holds exactly the passes that have a name, each cleaned |
| DBBattlePasses.PassCleaned | ModernWarfare/database.py:61-67 | a kept pass keeps its keys and values; each item loses exactly type and billboard |
| DBBattlePasses.StripAll | ModernWarfare/database.py:61-67 | the item loop computes the stripped list |
| DBBundles.ItemIds | ModernWarfare/database.py:113-118 | one id per item |
| DBBundles.Stripped | ModernWarfare/database.py:113-137 | popped keys are gone, nulls dropped, items replaced by their ids, everything else kept |
| DBBundles.Plain | ModernWarfare/database.py:138-139 | the flavor is dropped exactly when it repeats the name |
| DBBundles.BundlesExactly | ModernWarfare/database.py:93-161 | the database holds exactly the kept bundles, each cleaned |
| DBBundles.ListedImagesCollected | ModernWarfare/database.py:105-106 | a listed bundle's billboard and logo are collected, kept or not |
| DBBundles.BundleFlavor | ModernWarfare/database.py:128-139 | a kept bundle has a flavor exactly when it is set and differs from its name |
| DBBundles.BundlePopped | ModernWarfare/database.py:120-126 | a kept bundle has lost every popped key |
| DBBundles.BundleNullsDropped | ModernWarfare/database.py:128-137 | every other nullable key is kept exactly when not null |
| DBBundles.BundleFieldsKept | ModernWarfare/database.py:113-161 | items become ids, slug and animation are set, and every other field is kept as it was |
| DBBundles.ContentIdsExactly | ModernWarfare/database.py:179-193 | an id is content exactly when some non-operator item has it and no bundle does |
| DBBundles.Priced | ModernWarfare/database.py:195-201 | DLC-only keys gone, the image becomes the billboard, the price is null |
| DBBundles.Typed | ModernWarfare/database.py:203-204 | an entry without a type gets the variety type; otherwise unchanged |
| DBBundles.DurablesExactly | ModernWarfare/database.py:163-212 | the database holds exactly the kept durable entries, each cleaned |
| DBBundles.DurableCleaned | ModernWarfare/database.py:174-209 | a kept durable is listed like a bundle: billboard, no price, content ids, a type, a slug |
| DBBundles.DurableFieldsKept | ModernWarfare/database.py:163-212 | every other field is kept as it was |
| DBBundles.RemoveFirst | ModernWarfare/database.py:187-191 | `list.remove` takes away one occurrence, or nothing when absent |
| DBBundles.RemoveAppended | ModernWarfare/database.py:187-191 | removing the id just appended restores the list |
| DBBundles.FindBundle | ModernWarfare/database.py:185-191 | the inner loop finds whether the id is some bundle's |
| DBBundles.Contents | ModernWarfare/database.py:179-193 | the item loop computes the content ids, and none of them is a bundle id |
| DBBundles.CollectIds | ModernWarfare/database.py:113-118 | the item loop collects the ids |
| DBLoot.LootFileDistinct | ModernWarfare/database.py:338-339 | the membership test keeps the list free of duplicates |
| DBLoot.LootFilesDistinct | ModernWarfare/database.py:259-342 | all the loot files together add no duplicate |
| DBLoot.LootFileExactly | ModernWarfare/database.py:259-342 | after a file the list holds what it held plus each kept item cleaned, nothing else |
| DBLoot.LootFilesExactly | ModernWarfare/database.py:234-342 | the loot list holds exactly the cleaned kept items of all files |
| DBLoot.LootTrimmed | ModernWarfare/database.py:284-308 | popped keys are gone, no optional field is null, the season is never "Unreleased", the slug is set |
| DBLoot.LootFieldKept | ModernWarfare/database.py:259-342 | every other field is kept as it was |
| DBLoot.LootAnimation | ModernWarfare/database.py:324-334 | only calling cards and emblems, at their sprite sizes, are flagged animated |
| DBLoot.VariantTrimmed | ModernWarfare/database.py:364-393 | a variant loses altId and nulls, never "Unreleased", and records its weapon's class and id |
| DBLoot.VariantsExactly | ModernWarfare/database.py:344-399 | a weapon contributes exactly its kept variants, each cleaned |
| DBOperators.AttachmentsExactly | ModernWarfare/database.py:454-526 | an id is attached exactly when some kept item with it passes the operator rules |
| DBOperators.OwnItemsAttached | ModernWarfare/database.py:454-526 | an operator's own items are always attached |
| DBOperators.ColdWarOperatorRules | ModernWarfare/database.py:454-526 | a Cold War operator takes foreign items only as executions for all Cold War operators |
| DBOperators.OtherOperatorRules | ModernWarfare/database.py:454-526 | other operators take all-operator items, and launch-operator skins when they are launch operators |
| DBOperators.WithLists | ModernWarfare/database.py:449-452 | the three lists and the slug are set; nothing else changes |
| DBOperators.OperatorFieldKept | ModernWarfare/database.py:528-557 | every other field is kept as it was |
| DBOperators.OperatorLists | ModernWarfare/database.py:449-526 | a compiled operator holds its three attachment lists and its slug |
| DBOperators.OperatorPopped | ModernWarfare/database.py:528-536 | every popped key is gone |
| DBOperators.OperatorNullsDropped | ModernWarfare/database.py:538-543 | a nullable key is kept exactly when not null |
| DBOperators.OperatorsExactly | ModernWarfare/database.py:414-572 | the database holds exactly the kept operators, each compiled |
| DBOperators.Attach | ModernWarfare/database.py:454-526 | each attachment loop computes the attached ids and collects every item image |
| DBWeapons.VariantIdsExactly | ModernWarfare/database.py:598-612 | a variant id is collected exactly when some listed variant has it |
| DBWeapons.VariantIdsPresent | ModernWarfare/database.py:598-612 | no collected variant id is null |
| DBWeapons.WithIds | ModernWarfare/database.py:614 | the variants become their ids; nothing else changes |
| DBWeapons.WeaponsExactly | ModernWarfare/database.py:575-654 | the database holds exactly the listed weapons, each cleaned |
| DBWeapons.WeaponsImagesExactly | ModernWarfare/database.py:596 | the collected images are exactly the listed weapons' icons |
| DBWeapons.WeaponTrimmed | ModernWarfare/database.py:614-639 | variant ids and slug are set, popped keys gone, no null description or season, never "Unreleased" |
| DBWeapons.WeaponFieldKept | ModernWarfare/database.py:575-654 | every other field is kept as it was |
| DBWeapons.WeaponNullsDropped | ModernWarfare/database.py:620-623 | a nullable key is kept exactly when non-null and, for the season, released |
| DBWeapons.CollectVariantIds | ModernWarfare/database.py:598-612 | the variant loop collects the listed variants' ids |
| Database.ChunksConserve | ModernWarfare/database.py:27-36 | the chunks, concatenated, are every image entry in order |
| Database.ChunksBounded | ModernWarfare/database.py:30-31 | a chunk reaches 30000 characters only as a single over-long image |
| Database.JoinedAppend | ModernWarfare/database.py:35 | the text written for two runs of chunks is the first run's text followed by the second's |
| Database.EveryChunkBroken | ModernWarfare/database.py:35 | every flushed chunk, at any position, is followed by exactly the ten-newline break, with the earlier chunks' text before it and the later chunks' text after it |
| Database.UnbrokenJoined | ModernWarfare/database.py:35 | removing the breaks from the flushed text gives back the chunks |
| Database.ChunksHaveNoBreak | ModernWarfare/database.py:27-36 | images without newlines give chunks without newlines |
| Database.ImagesFileKeepsAll | ModernWarfare/database.py:27-39 | the image text with the last chunk appended holds every image once, in order |
| Database.AsWrittenLosesLastChunk | ModernWarfare/database.py:38-39 | the written text drops the last chunk once a chunk was flushed |
| Database.TwoChunks | ModernWarfare/database.py:30-35 | a concrete example, used by AsWrittenLosesLastChunk: two images too long for one chunk are split into two chunks |
| Database.Database.constructor | ModernWarfare/database.py:18-19 | image list and count start empty |
| Database.Database.WriteImages | ModernWarfare/database.py:27-39 | every distinct image once; the text written is the as-written file, the corrected file is returned beside it, and the written text is a prefix of the corrected one |
| Database.Database.Compile | ModernWarfare/database.py:15-43 | the five compilers' record lists, the count is their total, the image list is all images collected |
| Database.Database.CompileBattlePasses | ModernWarfare/database.py:46-78 | the named passes stripped, one count each, no image |
| Database.Database.CompileBundle | ModernWarfare/database.py:93-161 | one store bundle: its images and, when kept, its cleaned record |
| Database.Database.CompileDurable | ModernWarfare/database.py:163-212 | one DLC entry: its image and, when kept, its cleaned record |
| Database.Database.CompileBundles | ModernWarfare/database.py:81-224 | bundles then durables, images and count to match |
| Database.Database.CompileLootFile | ModernWarfare/database.py:259-342 | one file's kept, new items cleaned and appended, all listed images collected |
| Database.Database.CompileVariants | ModernWarfare/database.py:344-399 | one weapon's kept variants cleaned and appended |
| Database.Database.CompileLootFiles | ModernWarfare/database.py:234-342 | every loot file in turn |
| Database.Database.CompileWeaponVariants | ModernWarfare/database.py:344-399 | every weapon's variants in turn |
| Database.Database.CompileLoot | ModernWarfare/database.py:227-411 | loot files then weapon variants |
| Database.Database.CompileOperator | ModernWarfare/database.py:435-560 | one operator with its attachments, images and count |
| Database.Database.CompileOperators | ModernWarfare/database.py:414-572 | the kept operators compiled |
| Database.Database.CompileWeapons | ModernWarfare/database.py:575-654 | the listed weapons cleaned |

## Left out

- File and CSV reading, JSON writing, logging and the per-table `Compile` wrappers of every XAssets class (each reads a CSV, calls `IDs`/`Table` and writes a file). These are I/O, so the tables come in as parameters and a missing file is `None`.
- `ModernWarfare.__init__` and `ModernWarfare.Compile` (`modernwarfare.py:153-239`): configuration and the order in which the compilers run.
- `Utility` helpers: their code is not part of this model, so ReadCSV, ReadFile, WriteFile, FileExists, AnimateSprite, Sluggify, SortList, GetCSVArray, PrettyTime, StripColorCodes and StripButtonCodes are parameters. `str.title` is a parameter. `str.lower` is ASCII lower-casing.
- Resolvers.GetLootType: the unknown ref-type warning (`modernwarfare.py:373-376`) is logging, modelled as moving on to the next row.
- Set iteration order in `Database.Compile` is not determined by the code. It is a ghost `order` that holds every distinct image once.
- The final `SortList` of each database file (`database.py:214-224`, `562-572`, and the other compilers' writes) is left out. The lists are modelled as they stand before sorting.
- Records are values: the in-place mutation of a dictionary already appended to a list is modelled by rebuilding the record. The dead local `items` in DBBattlePasses (`database.py:61-67`) has no effect and is not modelled.
- Python cross-type equality (`1 == True`) is not modelled: JSON values compare by constructor.
- Resolvers.GetLootSeason: `round(license / 1000)` is modelled as integer division on the three offsets the code accepts, where both agree.
- Resolvers.GetTitleAvailability: every item-source row is taken to carry a `marketPlaceID`, so an absent id matches no row and gets the default. Python's `None == None` match against a row with an empty id cell is not modelled.
- Python crashes (a missing key without a default, `replace` on `None`, `[-1]` on an empty list) are preconditions, not error results.
- Resolvers.GetLootType: a placeholder range stops only the range scan, and the item sources still decide (`modernwarfare.py:299-300`). The model follows the code here, not the reading in which a placeholder range means the item has no type.
- VehicleHorns.Named: the horn table row type has no flavor-text column, so the flavor read is `localize.get(None)`, always None.
- Json.CompiledAvailabilityKept states the code as written: the availability dropped in the database pass is a four-key map (with `vanguard`), and GetTitleAvailability builds three-key maps. Whether the JSON files ever hold four-key maps depends on files outside this model.
- Challenges.OfficerRecord: the season after `ch_elder_s` (`challenges.py:170`) is read as a non-empty run of ASCII digits. Python's `int()` also accepts a sign, surrounding whitespace and other Unicode digits; OfficerRowReadable excludes refs with those, treating them like the refs on which `int()` raises.
- Challenges.WeeklyRecordDecodes: the same narrowing applies to the `season_` and `week_` segments of the weekly refs (`challenges.py:272-273`, `329-330`); WeeklyRowReadable admits only ASCII-digit segments and excludes the rest like a failing `int()`.
- Empty key cells (a loot-master `typeNameLoc`, a category name, an operator ref) are modelled as keys absent from the localization map. Both read as None, as `localize.get` of an empty or unknown key does.
- Text.ReplaceOnce: `str.replace` is proved for a template that occurs once, which is how the tables use it. Several occurrences are computed but not characterised.

## Findings

| source | as written | input that shows it | evidently intended | confidence | as-written member | corrected member |
|---|---|---|---|---|---|---|
| ModernWarfare/database.py:38-39 | the pending last chunk is written only when no chunk was flushed before it | two distinct images a and b with len(a)+1 < 30000 and len(a)+len(b)+2 ≥ 30000: the file holds only `a,` and the break, and b is lost | the last chunk is always appended, so every image is written | not executed | Database.AsWrittenLosesLastChunk | Database.ImagesFileKeepsAll |
