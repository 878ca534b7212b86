# OHLC series: a verified model

This project models two classes of JFreeChart's `org.jfree.data.time.ohlc`
package:

- `OHLCItem` is one price record. It holds a time period and four values
  (open, high, low, close). It is ordered by its period alone, and it is equal
  to another item only when the period and all four values match.
- `OHLCSeries` is a list of such items, kept in period order with at most one
  item per period. All items have one class of period, which the first
  insertion binds. An optional maximum item count and an optional maximum item
  age (in periods) evict items from the front.

The model has four files:

- `wrappers.dfy`: the `Option`, `Result` and `Outcome` types. They stand in for
  Java's `null` results and thrown exceptions.
- `ohlc_item.dfy` (module `Items`): the period, the four values, and the item.
  The item is both a value (`Item`) and a class (`OHLCItem`) whose `SetValue`
  replaces the values in place.
- `series_spec.dfy` (module `SeriesSpec`): what each series operation does to
  the list of items, written as functions on sequences. It also proves the
  invariants those operations keep:
  - the list is sorted, so periods are unique;
  - all items have one kind of period;
  - the list is within the count limit;
  - the list is within the age limit.
- `ohlc_series.dfy` (module `Series`): the class `OHLCSeries`, whose methods
  update its fields in place. Its loops are the source's loops:
  - binary search;
  - aging from the front;
  - deleting a block;
  - copying a range;
  - merging another series;
  - collecting the periods unique to another series.

  Each method is proved against the functions of `SeriesSpec`, and keeps the
  invariant `Valid()`.

How the model represents the source:

- A period is its kind (the period class) and its serial index. Periods are
  compared by serial index only, as `RegularTimePeriod.compareTo` does within
  one class.
- A series stores `Item` values. The source clones the items that `add`,
  `addOrUpdate`, `getDataItem`, `createCopy` and `clone` take in or hand out.
  It does not clone in `getRawDataItem` and `getValue`, which return the stored
  `OHLCItem` object itself. The model does not cover a caller that changes that
  object (see "## Left out").
- Change events sent to listeners are counted in a ghost field, `events`.
- Each exception the source throws is an error value, `SeriesError`.

## Model

| member | source | states |
|---|---|---|
| Items.ComparePeriods | src/main/java/org/jfree/data/time/ohlc/OHLCItem.java:171-173 | the comparison is negative, zero or positive exactly when the first period's serial index is below, equal to or above the second's |
| Items.CompareItems | src/main/java/org/jfree/data/time/ohlc/OHLCItem.java:171-173 | two items compare by the serial indices of their periods, in both directions |
| Items.WithValue | src/main/java/org/jfree/data/time/ohlc/OHLCItem.java:140-142 | replacing the values keeps the period and installs exactly the new four values |
| Items.CompareIgnoresValues | src/main/java/org/jfree/data/time/ohlc/OHLCItem.java:171-173 | two items with the same period compare as 0 whatever their values |
| Items.CompareCoarserThanEquality | src/main/java/org/jfree/data/time/ohlc/OHLCItem.java:145-173 | every item compares as 0 to itself, and two different items can still compare as 0 (ordering is coarser than `equals`) |
| Items.CompareIsOrder | src/main/java/org/jfree/data/time/ohlc/OHLCItem.java:171-173 | the comparison is antisymmetric and transitive |
| Items.OHLCItem.constructor | src/main/java/org/jfree/data/time/ohlc/OHLCItem.java:72-76 | every accessor returns exactly the constructor's argument, and the y-value is the close value |
| Items.OHLCItem.YValue | src/main/java/org/jfree/data/time/ohlc/OHLCItem.java:92-94 | the y-value is the close value |
| Items.OHLCItem.SetValue | src/main/java/org/jfree/data/time/ohlc/OHLCItem.java:140-142 | all four values are replaced and the period is unchanged |
| Items.OHLCItem.Equals | src/main/java/org/jfree/data/time/ohlc/OHLCItem.java:145-160 | equal exactly when the periods and the four values are equal |
| Items.OHLCItem.CompareTo | src/main/java/org/jfree/data/time/ohlc/OHLCItem.java:171-173 | the result depends only on the two periods; equal periods give 0 |
| Items.OHLCItem.Clone | src/main/java/org/jfree/data/time/ohlc/OHLCItem.java:176-185 | a new object equal to the original |
| SeriesSpec.CountBelowSplits | src/main/java/org/jfree/data/time/ohlc/OHLCSeries.java:326-330 | in a sorted list, the first `CountBelow(s, x)` items are below `x` and the rest are not |
| SeriesSpec.CountBelowAt | src/main/java/org/jfree/data/time/ohlc/OHLCSeries.java:326-330 | any split point with only smaller serials before it and none after it equals the count of smaller serials |
| SeriesSpec.IndexOf | src/main/java/org/jfree/data/time/ohlc/OHLCSeries.java:326-330 | a non-negative result is the index of the item with that serial; a negative result is `-(k) - 1`, where `k` counts the items below the period; the result is negative exactly when no item has the period |
| SeriesSpec.IndexOfAt | src/main/java/org/jfree/data/time/ohlc/OHLCSeries.java:211-214 | looking up the period of the item at index `i` gives `i` back |
| SeriesSpec.InsertAtSplit | src/main/java/org/jfree/data/time/ohlc/OHLCSeries.java:403-406 | inserting between the smaller and the larger serials keeps the list sorted |
| SeriesSpec.InsertContents | src/main/java/org/jfree/data/time/ohlc/OHLCSeries.java:405 | insertion adds exactly one copy of the item and moves nothing else in or out |
| SeriesSpec.InsertInOrder | src/main/java/org/jfree/data/time/ohlc/OHLCSeries.java:393-418 | a new period inserted at its insertion point keeps the list sorted, and the multiset of items gains exactly that item |
| SeriesSpec.AgedCount | src/main/java/org/jfree/data/time/ohlc/OHLCSeries.java:640-644 | every item counted is too old, and the first item not counted is within the age limit |
| SeriesSpec.AgedFromStops | src/main/java/org/jfree/data/time/ohlc/OHLCSeries.java:640-644 | aging stops at the first item within the limit, so exactly the too-old prefix goes |
| SeriesSpec.AgedKeepsNewest | src/main/java/org/jfree/data/time/ohlc/OHLCSeries.java:634-651 | aging removes only a prefix, never the newest item, leaves the list within the age limit, and changes nothing in a list already within it |
| SeriesSpec.SuffixKeeps | src/main/java/org/jfree/data/time/ohlc/OHLCSeries.java:640-644 | removing items from the front keeps order, kind and the age bound |
| SeriesSpec.InsertKeepsInvariant | src/main/java/org/jfree/data/time/ohlc/OHLCSeries.java:393-418 | inserting a new period of the series' kind keeps order and kind, grows the list by one, and adds only that item |
| SeriesSpec.EvictionRestoresLimits | src/main/java/org/jfree/data/time/ohlc/OHLCSeries.java:419-425 | the count eviction and then the age eviction restore both limits, keep order and kind, and leave a suffix of the list |
| SeriesSpec.DropKeeps | src/main/java/org/jfree/data/time/ohlc/OHLCSeries.java:421-423 | removing the first item from a list one over the limit brings it back within the count limit and keeps order and kind |
| SeriesSpec.InsertDropKeeps | src/main/java/org/jfree/data/time/ohlc/OHLCSeries.java:393-423 | insertion followed by the count eviction keeps order, kind and the count limit |
| SeriesSpec.AppendAtEnd | src/main/java/org/jfree/data/time/ohlc/OHLCSeries.java:398-401 | a period after the last stored one is new, its insertion point is the end, and inserting there is appending |
| SeriesSpec.AgedKeeps | src/main/java/org/jfree/data/time/ohlc/OHLCSeries.java:634-651 | aging keeps order and kind and leaves a suffix within the age limit |
| SeriesSpec.AddKeepsInvariant | src/main/java/org/jfree/data/time/ohlc/OHLCSeries.java:374-433 | adding a new period keeps every invariant of the series, and the result holds only old items and the new one |
| SeriesSpec.OlderAtCapacityIsDropped | src/main/java/org/jfree/data/time/ohlc/OHLCSeries.java:403-423 | in a full series, a period older than every stored item is inserted at index 0 and evicted again, so the list is unchanged |
| SeriesSpec.AppendInOrder | src/main/java/org/jfree/data/time/ohlc/OHLCSeries.java:398-425 | a period after every stored one, with room under both limits, is simply appended |
| SeriesSpec.CopySliceStep | src/main/java/org/jfree/data/time/ohlc/OHLCSeries.java:806-814 | while copying a slice of a valid list, each next item is new to the copy and adding it appends it |
| SeriesSpec.UpdateKeepsPeriods | src/main/java/org/jfree/data/time/ohlc/OHLCSeries.java:523-527 | replacing one item's values leaves every period in place, so order, kind and age bound hold exactly when they held before |
| SeriesSpec.AgedSorted | src/main/java/org/jfree/data/time/ohlc/OHLCSeries.java:634-651 | aging keeps a list sorted |
| SeriesSpec.AddedSorted | src/main/java/org/jfree/data/time/ohlc/OHLCSeries.java:393-425 | adding a new period keeps a list sorted |
| SeriesSpec.AddOrUpdateData | src/main/java/org/jfree/data/time/ohlc/OHLCSeries.java:601-618 | the list after `addOrUpdate` is sorted |
| SeriesSpec.OverwriteChangesOnlyValues | src/main/java/org/jfree/data/time/ohlc/OHLCSeries.java:602-608 | for an existing period, `addOrUpdate` changes that item's values and nothing else: same periods, same positions, same count |
| SeriesSpec.AddOrUpdateKeepsInvariant | src/main/java/org/jfree/data/time/ohlc/OHLCSeries.java:588-624 | `addOrUpdate` of an item of the series' kind keeps order, kind and both limits |
| SeriesSpec.MergeRound | src/main/java/org/jfree/data/time/ohlc/OHLCSeries.java:539-545 | one merge round keeps the list sorted and adds at most one overwritten item |
| SeriesSpec.MergeUpTo | src/main/java/org/jfree/data/time/ohlc/OHLCSeries.java:536-547 | after `n` merge rounds the list is sorted, and at most `n` items were overwritten. When the merged periods strictly increase, every overwritten item is an item of the original list whose period is one of the first `n` merged periods, and they come in order; the list holds only original items and items with merged periods. Starting from a list within the age limit, the list stays within it, every original item whose period is among the first `n` merged ones has been overwritten, and every original item whose period is merged later is still in the list. When the list has room for every merged period it does not already hold, and all periods involved lie within the age limit of each other, every original item with no merged period is still in the list too |
| SeriesSpec.AddOrUpdateMembers | src/main/java/org/jfree/data/time/ohlc/OHLCSeries.java:588-624 | `addOrUpdate` grows the list by at most one item, and not at all when the period is stored, and leaves only old items and items with the new item's period |
| SeriesSpec.AgedMembers | src/main/java/org/jfree/data/time/ohlc/OHLCSeries.java:634-651 | aging never grows the list and adds no item |
| SeriesSpec.AddedMembers | src/main/java/org/jfree/data/time/ohlc/OHLCSeries.java:608-617 | adding a new period grows the list by at most one item, and leaves only old items and the new one |
| SeriesSpec.UpdatedMembers | src/main/java/org/jfree/data/time/ohlc/OHLCSeries.java:602-617 | overwriting the values of one item, then aging, never grows the list, and leaves only old items and the overwritten one |
| SeriesSpec.AddOrUpdateKeeps | src/main/java/org/jfree/data/time/ohlc/OHLCSeries.java:588-624 | when the period is stored or the list has room under the count limit, and all periods lie within the age limit of each other, `addOrUpdate` keeps every item with another period |
| SeriesSpec.KeptByUpdate | src/main/java/org/jfree/data/time/ohlc/OHLCSeries.java:602-617 | on a list within the age limit, overwriting one item's values and aging keeps every item with another period |
| SeriesSpec.KeptByInsert | src/main/java/org/jfree/data/time/ohlc/OHLCSeries.java:608-617 | adding a new period with room under the count limit, to a list that stays within the age limit, keeps every old item |
| SeriesSpec.MergeRoundList | src/main/java/org/jfree/data/time/ohlc/OHLCSeries.java:541-542 | merge round `n` grows the list by at most one item, and adds only items with the period of merged item `n - 1` |
| SeriesSpec.MergeRoundOverwritten | src/main/java/org/jfree/data/time/ohlc/OHLCSeries.java:541-545 | the item merge round `n` overwrites is an original item, because the merged periods strictly increase; it comes after every item overwritten before |
| SeriesSpec.MergeRoundStep | src/main/java/org/jfree/data/time/ohlc/OHLCSeries.java:539-545 | one merge round keeps the facts about the list and the overwritten items, with one more merged period |
| SeriesSpec.MergeRoundKeeps | src/main/java/org/jfree/data/time/ohlc/OHLCSeries.java:539-545 | when the list has room for every merged period it does not already hold, and all periods involved lie within the age limit of each other, a merge round keeps every original item with another period, and grows the list only for a period the original list does not hold |
| SeriesSpec.MergeOverwrittenExactly | src/main/java/org/jfree/data/time/ohlc/OHLCSeries.java:536-547 | merging into a list within the age limit, the overwritten items are exactly the original items whose period is among the merged ones, in order. When the list also has room for every merged period it does not already hold, and all periods involved lie within the age limit of each other, every other original item stays |
| SeriesSpec.AddOrUpdateAgeWithin | src/main/java/org/jfree/data/time/ohlc/OHLCSeries.java:618-622 | `addOrUpdate` always ends by aging, so its list is within the age limit |
| SeriesSpec.AgedKeepsRecent | src/main/java/org/jfree/data/time/ohlc/OHLCSeries.java:634-651 | aging keeps every item within the age limit of the newest one |
| SeriesSpec.KeptAfterInsert | src/main/java/org/jfree/data/time/ohlc/OHLCSeries.java:609-618 | on a list within the age limit, adding a new period before an item keeps that item: count eviction removes the front, aging measures against the unchanged newest item |
| SeriesSpec.KeptLater | src/main/java/org/jfree/data/time/ohlc/OHLCSeries.java:588-624 | on a list within the age limit, `addOrUpdate` of a period before an item keeps that item |
| SeriesSpec.LaterOriginalsStay | src/main/java/org/jfree/data/time/ohlc/OHLCSeries.java:538-542 | because the merged periods strictly increase, a merge round evicts no original item whose period is merged later |
| SeriesSpec.MergeRoundOverwrites | src/main/java/org/jfree/data/time/ohlc/OHLCSeries.java:539-545 | a merge round overwrites the original item with its period, which is still stored, and keeps every original item whose period comes later |
| SeriesSpec.MergeRoundFindsOriginal | src/main/java/org/jfree/data/time/ohlc/OHLCSeries.java:602-608 | a merged period that the original list holds is still stored when its round comes, so the round overwrites it |
| SeriesSpec.NoNewPeriods | src/main/java/org/jfree/data/time/ohlc/OHLCSeries.java:536-547 | when every merged period is one the list holds, no merged period is new |
| SeriesSpec.OverwriteOnlyNoEviction | src/main/java/org/jfree/data/time/ohlc/OHLCSeries.java:536-547 | a merge whose periods the list all holds evicts nothing from a list within both limits, even a full one |
| SeriesSpec.OverwrittenStep | src/main/java/org/jfree/data/time/ohlc/OHLCSeries.java:541-545 | an item overwritten in round `i` comes after every item overwritten before, so adding it to the unlimited result series appends it |
| SeriesSpec.RemoveRangeKeepsInvariant | src/main/java/org/jfree/data/time/ohlc/OHLCSeries.java:749-762 | deleting positions `start..end` removes exactly `end - start + 1` items and keeps order, kind and the age bound |
| SeriesSpec.RemoveRangeSorted | src/main/java/org/jfree/data/time/ohlc/OHLCSeries.java:753-755 | the remaining items stay sorted |
| SeriesSpec.RemoveRangeKind | src/main/java/org/jfree/data/time/ohlc/OHLCSeries.java:753-755 | the remaining items keep their kind |
| SeriesSpec.RemoveRangeAge | src/main/java/org/jfree/data/time/ohlc/OHLCSeries.java:753-755 | the span from oldest to newest never widens |
| SeriesSpec.TrimToCount | src/main/java/org/jfree/data/time/ohlc/OHLCSeries.java:138-147 | the result is the last min(count, limit) items, in order |
| SeriesSpec.TrimIsRemoveFront | src/main/java/org/jfree/data/time/ohlc/OHLCSeries.java:143-146 | deleting positions `0..count - limit - 1` keeps exactly the newest `limit` items; only a limit of 0 empties a non-empty list |
| SeriesSpec.WithinSlice | src/main/java/org/jfree/data/time/ohlc/OHLCSeries.java:830-861 | when the list splits into before, inside and after `[a, b]`, the items inside are the middle slice |
| SeriesSpec.CountBelowMonotone | src/main/java/org/jfree/data/time/ohlc/OHLCSeries.java:838-850 | a higher bound never counts fewer items |
| SeriesSpec.WithinIsSlice | src/main/java/org/jfree/data/time/ohlc/OHLCSeries.java:830-861 | in a sorted list, the items inside `[a, b]` are the slice from the first index at or after `a` to just past the last index at or before `b` |
| SeriesSpec.CountUpTo | src/main/java/org/jfree/data/time/ohlc/OHLCSeries.java:845-849 | the number of items at or before `b` is `b`'s index plus one when `b` is present, and its insertion point otherwise |
| SeriesSpec.UniqueToMembers | src/main/java/org/jfree/data/time/ohlc/OHLCSeries.java:307-317 | a period is reported exactly when some item of the other series has it and this series has no item with it |
| Series.BinarySearch | src/main/java/org/jfree/data/time/ohlc/OHLCSeries.java:326-330 | the binary search loop returns exactly `IndexOf` |
| Series.InsertNew | src/main/java/org/jfree/data/time/ohlc/OHLCSeries.java:393-423 | a duplicate period is refused (both directions); otherwise the item is inserted at its insertion point and the oldest item is evicted when over the count limit; the result is sorted, of one kind and within the limit |
| Series.PutItem | src/main/java/org/jfree/data/time/ohlc/OHLCSeries.java:601-617 | an existing period reports the old item and takes the new values; a new period is inserted in order and evicts the oldest item when over the count limit |
| Series.DropAgedFront | src/main/java/org/jfree/data/time/ohlc/OHLCSeries.java:640-644 | the loop removes exactly the too-old prefix |
| Series.PeriodRange | src/main/java/org/jfree/data/time/ohlc/OHLCSeries.java:838-854 | the rounded indices are empty exactly when no period lies in `[a, b]`; otherwise they delimit exactly the items in `[a, b]` |
| Series.RemoveSpan | src/main/java/org/jfree/data/time/ohlc/OHLCSeries.java:753-755 | removing at `start` once per position removes exactly positions `start..end` |
| Series.OHLCSeries.constructor | src/main/java/org/jfree/data/time/ohlc/OHLCSeries.java:78-84 | a new series is empty, has no kind bound, and has the largest `int` count and largest `long` age |
| Series.OHLCSeries.EmptyCopy | src/main/java/org/jfree/data/time/ohlc/OHLCSeries.java:856-858 | an empty copy keeps the key, the kind and both limits |
| Series.OHLCSeries.GetDataItem | src/main/java/org/jfree/data/time/ohlc/OHLCSeries.java:211-214 | the item at `index` is a stored item, and `getIndex` of its period is `index` |
| Series.OHLCSeries.GetDataItemByPeriod | src/main/java/org/jfree/data/time/ohlc/OHLCSeries.java:226-232 | an item is returned exactly when one with that serial index is stored, and it is that stored item |
| Series.OHLCSeries.GetIndex | src/main/java/org/jfree/data/time/ohlc/OHLCSeries.java:326-330 | the result is `IndexOf` on the stored items |
| Series.OHLCSeries.Add | src/main/java/org/jfree/data/time/ohlc/OHLCSeries.java:374-433 | another kind fails and changes nothing; a duplicate period fails and changes nothing; otherwise the kind is bound, the list becomes `AddedData`, one event is sent when asked, and `Valid` is kept |
| Series.OHLCSeries.UpdateAt | src/main/java/org/jfree/data/time/ohlc/OHLCSeries.java:523-527 | only the item at `index` takes the new values, and one event is sent |
| Series.OHLCSeries.Update | src/main/java/org/jfree/data/time/ohlc/OHLCSeries.java:507-515 | an absent period fails and changes nothing; otherwise only that item's values change |
| Series.OHLCSeries.AddOrUpdate | src/main/java/org/jfree/data/time/ohlc/OHLCSeries.java:588-624 | another kind fails and changes nothing; an existing period returns the old item and only its values change; a new period returns nothing and is added as by `add`; one event is sent |
| Series.OHLCSeries.MergeItem | src/main/java/org/jfree/data/time/ohlc/OHLCSeries.java:539-545 | one round of the loop performs `MergeRound` on this series and the overwritten series, and keeps both valid |
| Series.OHLCSeries.MergeAll | src/main/java/org/jfree/data/time/ohlc/OHLCSeries.java:538-546 | the loop performs `Merge`: this list becomes its first part, and the overwritten series holds its second part |
| Series.OHLCSeries.AddAndOrUpdate | src/main/java/org/jfree/data/time/ohlc/OHLCSeries.java:536-547 | a kind mismatch fails before any change; otherwise this series becomes the merged list, and a new unlimited series with this key holds the overwritten items in order |
| Series.OHLCSeries.RemoveAgedItems | src/main/java/org/jfree/data/time/ohlc/OHLCSeries.java:634-651 | the list becomes `Aged`, the kind stays bound, and one event is sent only when asked and something was removed |
| Series.OHLCSeries.RemoveAgedItemsBefore | src/main/java/org/jfree/data/time/ohlc/OHLCSeries.java:663-698 | the list becomes the items within the age limit of the given serial index; it may become empty while the kind stays bound |
| Series.OHLCSeries.SetMaximumItemCount | src/main/java/org/jfree/data/time/ohlc/OHLCSeries.java:138-147 | a negative limit fails and changes nothing; otherwise exactly the newest min(count, limit) items stay, and the kind is unbound when the limit is 0 and something was deleted |
| Series.OHLCSeries.SetMaximumItemAge | src/main/java/org/jfree/data/time/ohlc/OHLCSeries.java:170-176 | a negative limit fails and changes nothing; otherwise the new limit is set and the list is aged at once |
| Series.OHLCSeries.Clear | src/main/java/org/jfree/data/time/ohlc/OHLCSeries.java:704-710 | a non-empty series is emptied, its kind unbound and one event sent; an empty one is left as it is |
| Series.OHLCSeries.DeletePeriod | src/main/java/org/jfree/data/time/ohlc/OHLCSeries.java:720-729 | an absent period changes nothing; otherwise exactly that item is removed and the kind is unbound if the series becomes empty |
| Series.OHLCSeries.Delete | src/main/java/org/jfree/data/time/ohlc/OHLCSeries.java:749-762 | `end < start` fails and changes nothing; otherwise exactly positions `start..end` are removed and the kind is unbound if the series becomes empty |
| Series.OHLCSeries.CreateCopy | src/main/java/org/jfree/data/time/ohlc/OHLCSeries.java:795-817 | a negative start or `end < start` fails; otherwise a new valid series with this key, kind and limits holds exactly the slice (nothing for an empty series), and a full-range copy equals the original |
| Series.OHLCSeries.AddSlice | src/main/java/org/jfree/data/time/ohlc/OHLCSeries.java:806-814 | adding the items of a slice one by one leaves exactly that slice |
| Series.OHLCSeries.CreateCopyByPeriod | src/main/java/org/jfree/data/time/ohlc/OHLCSeries.java:830-861 | `a` after `b` fails; otherwise the copy holds exactly the items whose periods lie in `[a, b]`, in order, with this key, kind and limits |
| Series.OHLCSeries.GetTimePeriodsUniqueToOtherSeries | src/main/java/org/jfree/data/time/ohlc/OHLCSeries.java:307-317 | the result is `UniqueTo`, and a period is in it exactly when the other series has it and this one does not |
| Series.OHLCSeries.Equals | src/main/java/org/jfree/data/time/ohlc/OHLCSeries.java:870-895 | equal exactly when kind, both limits, the items and the key are equal |

## Left out

- Periods are reduced to a kind and a serial index. The calendar logic of `RegularTimePeriod` is not part of this model: `next()`, the serial index computation, and `getNextTimePeriod` (OHLCSeries.java:282-285).
- Comparison is by serial index alone, also between periods of different kinds. `update(period, …)` and `getIndex` check no kind, so a period of another kind with a stored serial index is found.
- The four values are reals. There is no floating point, so NaN and signed-zero equality are not modelled. The `OHLC` class is not part of this model.
- Both `hashCode` methods are left out. The series' hash (OHLCSeries.java:903-925) combines the base class hash of the key, the kind, the first, last and middle items and both limits. The item's hash (OHLCItem.java:163-168) combines the period's hash and the `OHLC` value's hash. Both use 32-bit overflowing arithmetic.
- Change notification is a ghost counter, `events`. Listeners, `fireSeriesChanged` and the `Series` base class are not part of this model.
- Series.OHLCSeries.Equals compares the key only, where the source's `super.equals` also compares whatever else the base class holds.
- Series.OHLCSeries.RemoveAgedItemsBefore takes the serial index of the period that contains `latest`. The source builds that period by reflection from a `Date`, the default `TimeZone` and the default `Locale`, and none of that is modelled.
- Cloning and serialization are left out. Items are values, so the clones that `add`, `addOrUpdate`, `getDataItem` and the copy methods make are implicit.
- `getRawDataItem(int)` and `getRawDataItem(period)` (OHLCSeries.java:244-264) return the stored `OHLCItem` object, not a copy. So do `getValue(int)` and `getValue(period)` (OHLCSeries.java:338-355), which call them. A caller can call `setValue` on that object and change the series' values in place, with no change event. The model hands out `Item` values, so this aliasing and the in-place `setValue` on a stored item are not modelled.
- Null checks and Java's index-out-of-bounds exceptions become preconditions. This covers `Args.nullNotPermitted`, `List.get` and `List.remove` out of range, and `createCopy` with `end` past the last index.
- Serial indices and limits are unbounded integers. The `long` subtraction in the age checks is assumed not to overflow. The limits are kept within `Integer.MAX_VALUE` and `Long.MAX_VALUE` by preconditions on the setters.
- Series.OHLCSeries.AddAndOrUpdate checks the kind of the other series' first item before the loop, where the source finds the mismatch in the first `addOrUpdate`. Nothing has changed at that point, and all items of the other series share one kind, so the outcome is the same.
- Series.OHLCSeries.CreateCopy states the copy's items, key, kind and limits, but not the number of change events the copy sends while it is filled.
- The convenience overloads (`add(period, …)`, `addOrUpdate(period, …)`, `update(period, double…)`, `delete(start, end)`) only build an item or pass a default, and are covered by the members they call. So are the read-only getters (`getItemCount`, `getItems`, `getPeriod`, `getTimePeriod`, `getTimePeriods`, the limit getters).
- Lemmas that would relate the whole merge to both limits were left out because they were too costly to verify. The merge still keeps `Valid` on both series through `MergeItem` and `MergeAll`.
- SeriesSpec.MergeOverwrittenExactly proves that every other original item stays only when the list has room for every merged period it does not already hold, and all periods involved lie within the age limit of each other. This covers a merge that only overwrites, also into a full series (`OverwriteOnlyNoEviction`). A merge that does evict can drop an original item whose period is not merged, and the model does not say which one.
