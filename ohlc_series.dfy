/** OHLCSeries.java: a list of OHLC items kept in period order, one item per
    period, with an optional limit on the number of items and on their age. */
module Series {
  import opened Wrappers
  import opened Items
  import opened SeriesSpec

  /** The exceptions the series throws. */
  datatype SeriesError =
    | PeriodKindMismatch   // a period of another class than the series holds
    | DuplicatePeriod      // `add` of a period already present
    | PeriodNotFound       // `update` of a period not present
    | InvalidRange         // a range whose end lies before its start, or a negative start
    | NegativeLimit        // a negative maximum item count or age

  /** `Collections.binarySearch` over the items, comparing periods. */
  method BinarySearch(s: seq<Item>, p: Period) returns (r: int)
    requires Sorted(s)
    ensures r == IndexOf(s, p)
  {
    var low, high := 0, |s| - 1;
    while low <= high
      invariant 0 <= low <= high + 1 <= |s|
      invariant forall i :: 0 <= i < low ==> s[i].period.serial < p.serial
      invariant forall i :: high < i < |s| ==> p.serial < s[i].period.serial
      decreases high - low
    {
      var mid := (low + high) / 2;
      var cmp := ComparePeriods(s[mid].period, p);
      if cmp < 0 {
        low := mid + 1;
      } else if cmp > 0 {
        high := mid - 1;
      } else {
        CountBelowAt(s, p.serial, mid);
        return mid;
      }
    }
    CountBelowAt(s, p.serial, low);
    return -(low + 1);
  }

  /** The insertion step of `add`, on the list: an empty list or a period
      after the newest is appended, otherwise binary search finds the place
      and a period already present is refused (`None`); then the oldest item
      goes when the count limit is passed. */
  method InsertNew(s: seq<Item>, e: Item, maxCount: nat) returns (r: Option<seq<Item>>)
    requires Sorted(s) && OfKind(s, e.period.kind) && |s| <= maxCount
    ensures r.None? <==> IndexOf(s, e.period) >= 0
    ensures r.Some? ==>
      r.value == DropOldestOver(Insert(s, CountBelow(s, e.period.serial), e), maxCount)
    ensures r.Some? ==>
      Sorted(r.value) && OfKind(r.value, e.period.kind) && |r.value| <= maxCount
  {
    var ins: seq<Item>;
    if |s| == 0 {
      ins := [e];
      assert ins == Insert(s, 0, e);
    } else if ComparePeriods(e.period, s[|s| - 1].period) > 0 {
      AppendAtEnd(s, e);
      ins := s + [e];
    } else {
      var index := BinarySearch(s, e.period);
      if index >= 0 {
        return None;
      }
      ins := s[..-index - 1] + [e] + s[-index - 1..];
    }
    InsertDropKeeps(s, e, e.period.kind, maxCount);
    if |ins| > maxCount {
      ins := ins[1..];
    }
    return Some(ins);
  }

  /** The change step of `addOrUpdate`, on the list: an existing period takes
      the new values (and the old item is reported), a new period is inserted
      at the place binary search finds and the oldest item goes when the count
      limit is passed. */
  method PutItem(s: seq<Item>, e: Item, maxCount: nat) returns (overwritten: Option<Item>, d: seq<Item>)
    requires Sorted(s) && OfKind(s, e.period.kind) && |s| <= maxCount
    ensures var i := IndexOf(s, e.period);
      (i >= 0 ==> overwritten == Some(s[i]) && d == UpdatedAt(s, i, e.ohlc)) &&
      (i < 0 ==>
        overwritten == None &&
        d == DropOldestOver(Insert(s, CountBelow(s, e.period.serial), e), maxCount))
    ensures Sorted(d) && OfKind(d, e.period.kind) && |d| <= maxCount
  {
    var index := BinarySearch(s, e.period);
    if index >= 0 {
      var existing := s[index];
      overwritten := Some(existing);
      UpdateKeepsPeriods(s, index, e.ohlc, e.period.kind, 0);
      d := s[index := WithValue(existing, e.ohlc)];
    } else {
      overwritten := None;
      var ins := s[..-index - 1] + [e] + s[-index - 1..];
      InsertDropKeeps(s, e, e.period.kind, maxCount);
      if |ins| > maxCount {
        ins := ins[1..];
      }
      d := ins;
    }
  }

  /** The loop of both `removeAgedItems` methods: while the oldest item lies
      more than `maxAge` periods before `latest`, remove it. */
  method DropAgedFront(s: seq<Item>, latest: int, maxAge: nat) returns (d: seq<Item>)
    ensures d == AgedFrom(s, latest, maxAge)
  {
    d := s;
    while |d| > 0 && latest - d[0].period.serial > maxAge
      invariant |d| <= |s|
      invariant d == s[|s| - |d|..]
      invariant forall i :: 0 <= i < |s| - |d| ==> latest - s[i].period.serial > maxAge
      decreases |d|
    {
      d := d[1..];
    }
    AgedFromStops(s, |s| - |d|, latest, maxAge);
  }

  /** The index arithmetic of `createCopy(start, end)` by periods: `a`'s index
      or insertion point, `b`'s index or the position before its insertion
      point, and whether that range is empty. It selects exactly the items
      whose periods lie in `[a, b]`. */
  method PeriodRange(s: seq<Item>, a: Period, b: Period) returns (lo: int, hi: int, empty: bool)
    requires Sorted(s) && a.serial <= b.serial
    ensures empty <==> Within(s, a, b) == []
    ensures !empty ==> 0 <= lo <= hi < |s| && Within(s, a, b) == s[lo..hi + 1]
  {
    WithinIsSlice(s, a, b);
    CountUpTo(s, b);
    empty := false;
    lo := BinarySearch(s, a);
    if lo < 0 {
      lo := -(lo + 1);
      if lo == |s| {
        empty := true;
      }
    }
    hi := BinarySearch(s, b);
    if hi < 0 {
      hi := -(hi + 1);
      hi := hi - 1;
    }
    if hi < 0 || hi < lo {
      empty := true;
    }
  }

  /** The loop of `delete(start, end)`: remove the item at `start` once for
      every position from `start` to `end`. */
  method RemoveSpan(s: seq<Item>, start: nat, end: nat) returns (d: seq<Item>)
    requires start <= end < |s|
    ensures d == RemoveRange(s, start, end)
  {
    d := s;
    var i := 0;
    while i <= end - start
      invariant 0 <= i <= end - start + 1
      invariant d == s[..start] + s[start + i..]
    {
      assert d[start + 1..] == s[start + i + 1..];
      d := d[..start] + d[start + 1..];
      i := i + 1;
    }
  }

  class OHLCSeries<S(==)> {
    /** The series key (kept by the `Series` base class). */
    const key: S
    /** The class of period the series holds; bound by the first insertion. */
    var kind: Option<Kind>
    var data: seq<Item>
    var maxCount: nat
    var maxAge: nat
    /** The number of change events sent to listeners so far. */
    ghost var events: nat

    /** What every operation keeps, except possibly the two limits. */
    ghost predicate Consistent()
      reads this
    {
      Sorted(data) &&
      (kind.None? ==> data == []) &&
      (kind.Some? ==> OfKind(data, kind.value)) &&
      maxCount <= IntMax && maxAge <= LongMax
    }

    /** The series invariant: ordered, unique periods of one kind, within both
        limits. An empty series may still have its kind bound. */
    ghost predicate Valid()
      reads this
    {
      Consistent() && |data| <= maxCount && AgeWithin(data, maxAge)
    }

    /** A new empty series with no limits (the largest `int` and `long`). */
    constructor (key: S)
      ensures Valid() && this.key == key
      ensures kind == None && data == [] && maxCount == IntMax && maxAge == LongMax
      ensures events == 0
    {
      this.key := key;
      kind := None;
      data := [];
      maxCount := IntMax;
      maxAge := LongMax;
      events := 0;
    }

    /** `super.clone()` followed by a fresh empty list: same key, kind and
        limits, no items. */
    constructor EmptyCopy(src: OHLCSeries<S>)
      requires src.Valid()
      ensures Valid() && key == src.key && kind == src.kind && data == []
      ensures maxCount == src.maxCount && maxAge == src.maxAge
      ensures events == 0
    {
      key := src.key;
      kind := src.kind;
      data := [];
      maxCount := src.maxCount;
      maxAge := src.maxAge;
      events := 0;
    }

    /** `getDataItem(index)` / `getRawDataItem(index)`: the stored item (a copy
        of it, which as a value is the same); looking up its period gives
        `index` back. */
    function GetDataItem(index: nat): (r: Item)
      reads this
      requires Valid() && index < |data|
      ensures r in data
      ensures IndexOf(data, r.period) == index
    {
      IndexOfAt(data, index);
      data[index]
    }

    /** `getDataItem(period)`: the item with that period, if any. */
    function GetDataItemByPeriod(p: Period): (r: Option<Item>)
      reads this
      requires Valid()
      ensures r.Some? <==> exists i :: 0 <= i < |data| && data[i].period.serial == p.serial
      ensures r.Some? ==> r.value in data && r.value.period.serial == p.serial
    {
      var i := IndexOf(data, p);
      if i >= 0 then Some(data[i]) else None
    }

    /** `getIndex`: binary search for the period. */
    method GetIndex(p: Period) returns (r: int)
      requires Valid()
      ensures r == IndexOf(data, p)
    {
      r := BinarySearch(data, p);
    }

    /** `add(item, notify)`. */
    method Add(item: Item, notify: bool) returns (r: Outcome<SeriesError>)
      requires Valid()
      modifies this
      ensures Valid() && maxCount == old(maxCount) && maxAge == old(maxAge)
      ensures old(kind).Some? && old(kind).value != item.period.kind ==>
        r == Fail(PeriodKindMismatch) &&
        data == old(data) && kind == old(kind) && events == old(events)
      ensures (old(kind).None? || old(kind).value == item.period.kind) &&
              IndexOf(old(data), item.period) >= 0 ==>
        r == Fail(DuplicatePeriod) &&
        data == old(data) && kind == old(kind) && events == old(events)
      ensures (old(kind).None? || old(kind).value == item.period.kind) &&
              IndexOf(old(data), item.period) < 0 ==>
        r == Pass && kind == Some(item.period.kind) &&
        data == AddedData(old(data), item, maxCount, maxAge) &&
        events == old(events) + (if notify then 1 else 0)
    {
      var k := item.period.kind;
      if kind.None? {
        kind := Some(k);
      } else if kind.value != k {
        return Fail(PeriodKindMismatch);
      }
      var ins := InsertNew(data, item, maxCount);
      if ins.None? {
        return Fail(DuplicatePeriod);
      }
      data := ins.value;
      RemoveAgedItems(false);
      if notify {
        events := events + 1;
      }
      return Pass;
    }

    /** `update(index, value)`: the item at `index` takes the new values. */
    method UpdateAt(index: nat, v: OHLC)
      requires Valid() && index < |data|
      modifies this
      ensures Valid() && kind == old(kind) && maxCount == old(maxCount) && maxAge == old(maxAge)
      ensures data == UpdatedAt(old(data), index, v)
      ensures events == old(events) + 1
    {
      if kind.Some? {
        UpdateKeepsPeriods(data, index, v, kind.value, maxAge);
      }
      data := data[index := WithValue(data[index], v)];
      events := events + 1;
    }

    /** `update(period, value)`: fails when the period is not present. */
    method Update(p: Period, v: OHLC) returns (r: Outcome<SeriesError>)
      requires Valid()
      modifies this
      ensures Valid() && kind == old(kind) && maxCount == old(maxCount) && maxAge == old(maxAge)
      ensures var i := IndexOf(old(data), p);
        (i < 0 ==> r == Fail(PeriodNotFound) && data == old(data) && events == old(events)) &&
        (i >= 0 ==> r == Pass && data == UpdatedAt(old(data), i, v) && events == old(events) + 1)
    {
      var index := BinarySearch(data, p);
      if index < 0 {
        return Fail(PeriodNotFound);
      }
      UpdateAt(index, v);
      return Pass;
    }

    /** `addOrUpdate(item)`: overwrite the values of an existing period (and
        return the old item), or insert a new period (and return nothing). */
    method AddOrUpdate(item: Item) returns (r: Result<Option<Item>, SeriesError>)
      requires Valid()
      modifies this
      ensures Valid() && maxCount == old(maxCount) && maxAge == old(maxAge)
      ensures old(kind).Some? && old(kind).value != item.period.kind ==>
        r == Failure(PeriodKindMismatch) &&
        data == old(data) && kind == old(kind) && events == old(events)
      ensures old(kind).None? || old(kind).value == item.period.kind ==>
        r.Success? && kind == Some(item.period.kind) && events == old(events) + 1 &&
        data == AddOrUpdateData(old(data), item, maxCount, maxAge)
      ensures old(kind).None? || old(kind).value == item.period.kind ==>
        var i := IndexOf(old(data), item.period);
        (i >= 0 ==> r == Success(Some(old(data)[i])) && data == UpdatedAt(old(data), i, item.ohlc)) &&
        (i < 0 ==> r == Success(None) && data == AddedData(old(data), item, maxCount, maxAge))
    {
      var k := item.period.kind;
      if kind.None? {
        kind := Some(k);
      } else if kind.value != k {
        return Failure(PeriodKindMismatch);
      }
      var s := data;
      var overwritten, d := PutItem(s, item, maxCount);
      if overwritten.Some? {
        OverwriteChangesOnlyValues(s, item, maxCount, maxAge);
      }
      data := d;
      RemoveAgedItems(false);
      events := events + 1;
      return Success(overwritten);
    }

    /** One round of the loop of `addAndOrUpdate`: `addOrUpdate` of item `i`
        of `items`, then the overwritten item, if any, added to `overwritten`.
        The items overwritten so far have periods among the first `i` items,
        so the new one comes after all of them. */
    method MergeItem(items: seq<Item>, i: nat, overwritten: OHLCSeries<S>)
      requires i < |items| <= IntMax
      requires Sorted(items) && OfKind(items, items[0].period.kind) && AgeWithin(items, LongMax)
      requires Valid() && overwritten.Valid() && overwritten != this
      requires kind.None? || kind.value == items[0].period.kind
      requires overwritten.maxCount == IntMax && overwritten.maxAge == LongMax
      requires overwritten.data != [] ==> overwritten.kind == Some(items[0].period.kind)
      requires overwritten.data == [] ==> overwritten.kind == None
      requires |overwritten.data| <= i && OverwrittenBefore(overwritten.data, items, i)
      modifies this, overwritten
      ensures Valid() && maxCount == old(maxCount) && maxAge == old(maxAge)
      ensures overwritten.Valid() && overwritten.maxCount == IntMax && overwritten.maxAge == LongMax
      ensures kind == Some(items[0].period.kind) && events == old(events) + 1
      ensures (data, overwritten.data) ==
        MergeRound((old(data), old(overwritten.data)), items[i], maxCount, maxAge)
      ensures overwritten.data != [] ==> overwritten.kind == Some(items[0].period.kind)
      ensures overwritten.data == [] ==> overwritten.kind == None
      ensures |overwritten.data| <= i + 1 && OverwrittenBefore(overwritten.data, items, i + 1)
    {
      var item := items[i];
      assert item.period.kind == items[0].period.kind;
      ghost var ov := overwritten.data;
      ghost var round := MergeRound((data, ov), item, maxCount, maxAge);
      var res := AddOrUpdate(item);
      var oldItem := res.value;
      OverwrittenStep(ov, items, i, oldItem);
      if oldItem.Some? {
        var _ := overwritten.Add(oldItem.value, true);
        assert overwritten.data == round.1;
      } else {
        assert ov == round.1;
      }
    }

    /** `addAndOrUpdate(series)`: `addOrUpdate` of every item of `other` in
        order; the result is a new series (with this key and no limits) holding
        the overwritten items. All items of `other` share one kind, so a kind
        mismatch can only arise at the first item, before anything has
        changed: it is checked up front. */
    method AddAndOrUpdate(other: OHLCSeries<S>) returns (r: Result<OHLCSeries<S>, SeriesError>)
      requires Valid() && other.Valid()
      modifies this
      ensures Valid() && maxCount == old(maxCount) && maxAge == old(maxAge)
      ensures var items := old(other.data);
        items != [] && old(kind).Some? && old(kind).value != items[0].period.kind ==>
          r == Failure(PeriodKindMismatch) &&
          data == old(data) && kind == old(kind) && events == old(events)
      ensures var items := old(other.data);
        !(items != [] && old(kind).Some? && old(kind).value != items[0].period.kind) ==>
          var m := Merge(old(data), items, maxCount, maxAge);
          r.Success? && fresh(r.value) && r.value.Valid() && r.value.key == key &&
          r.value.maxCount == IntMax && r.value.maxAge == LongMax &&
          r.value.data == m.1 && (m.1 == [] ==> r.value.kind == None) &&
          (m.1 != [] ==> r.value.kind == kind) &&
          data == m.0 && events == old(events) + |items| &&
          kind == (if items == [] then old(kind) else Some(items[0].period.kind))
    {
      var items := other.data;
      if items != [] && kind.Some? && kind.value != items[0].period.kind {
        return Failure(PeriodKindMismatch);
      }
      var overwritten := new OHLCSeries<S>(key);
      if items != [] {
        MergeAll(items, overwritten);
      }
      return Success(overwritten);
    }

    /** The loop of `addAndOrUpdate`: `MergeItem` of every item of `items` in
        order, starting from an empty `overwritten` series without limits. */
    method MergeAll(items: seq<Item>, overwritten: OHLCSeries<S>)
      requires Valid() && overwritten.Valid() && overwritten != this
      requires overwritten.data == [] && overwritten.kind == None
      requires overwritten.maxCount == IntMax && overwritten.maxAge == LongMax
      requires items != [] && Sorted(items) && OfKind(items, items[0].period.kind)
      requires |items| <= IntMax && AgeWithin(items, LongMax)
      requires kind.None? || kind.value == items[0].period.kind
      modifies this, overwritten
      ensures Valid() && maxCount == old(maxCount) && maxAge == old(maxAge)
      ensures overwritten.Valid() && overwritten.maxCount == IntMax && overwritten.maxAge == LongMax
      ensures data == Merge(old(data), items, maxCount, maxAge).0
      ensures overwritten.data == Merge(old(data), items, maxCount, maxAge).1
      ensures overwritten.data == [] ==> overwritten.kind == None
      ensures overwritten.data != [] ==> overwritten.kind == kind
      ensures events == old(events) + |items| && kind == Some(items[0].period.kind)
    {
      ghost var K := items[0].period.kind;
      var i := 0;
      while i < |items|
        invariant 0 <= i <= |items|
        invariant Valid() && maxCount == old(maxCount) && maxAge == old(maxAge)
        invariant overwritten.Valid() && overwritten.maxCount == IntMax && overwritten.maxAge == LongMax
        invariant kind.None? || kind.value == K
        invariant (data, overwritten.data) == MergeUpTo(old(data), items, i, maxCount, maxAge)
        invariant i > 0 ==> kind == Some(K)
        invariant events == old(events) + i
        invariant overwritten.data == [] ==> overwritten.kind == None
        invariant overwritten.data != [] ==> overwritten.kind == Some(K)
        invariant |overwritten.data| <= i && OverwrittenBefore(overwritten.data, items, i)
      {
        MergeItem(items, i, overwritten);
        i := i + 1;
      }
    }

    /** `removeAgedItems(notify)`: with more than one item, drop items from the
        front while they lie more than `maxAge` periods before the newest. */
    method RemoveAgedItems(notify: bool)
      requires Consistent() && |data| <= maxCount
      modifies this
      ensures Valid() && kind == old(kind) && maxCount == old(maxCount) && maxAge == old(maxAge)
      ensures data == Aged(old(data), maxAge)
      ensures events == old(events) + (if notify && |data| < |old(data)| then 1 else 0)
    {
      if kind.Some? {
        AgedKeeps(data, kind.value, maxAge);
      }
      if |data| > 1 {
        var latest := data[|data| - 1].period.serial;
        var d := DropAgedFront(data, latest, maxAge);
        var removed := |d| < |data|;
        data := d;
        if removed && notify {
          events := events + 1;
        }
      }
    }

    /** `removeAgedItems(latest, notify)`, given the serial index of the period
        of this series' kind that contains the instant `latest`: drop items
        from the front while they lie more than `maxAge` periods before it. The
        series may become empty; its kind stays bound. */
    method RemoveAgedItemsBefore(latest: int, notify: bool)
      requires Valid()
      modifies this
      ensures Valid() && kind == old(kind) && maxCount == old(maxCount) && maxAge == old(maxAge)
      ensures data == AgedFrom(old(data), latest, maxAge)
      ensures events == old(events) + (if notify && |data| < |old(data)| then 1 else 0)
    {
      if |data| == 0 {
        return;
      }
      var d := DropAgedFront(data, latest, maxAge);
      if kind.Some? {
        SuffixKeeps(data, |data| - |d|, kind.value, maxAge);
      }
      var removed := |d| < |data|;
      data := d;
      if removed && notify {
        events := events + 1;
      }
    }

    /** `setMaximumItemCount`: a negative limit is refused; otherwise the
        oldest items beyond the new limit are deleted (through `delete`, which
        unbinds the kind when nothing is left). */
    method SetMaximumItemCount(m: int) returns (r: Outcome<SeriesError>)
      requires Valid() && m <= IntMax
      modifies this
      ensures Valid() && maxAge == old(maxAge)
      ensures m < 0 ==>
        r == Fail(NegativeLimit) && maxCount == old(maxCount) &&
        data == old(data) && kind == old(kind) && events == old(events)
      ensures 0 <= m ==> r == Pass && maxCount == m && data == TrimToCount(old(data), m)
      ensures 0 <= m && |old(data)| > m ==>
        kind == (if m == 0 then None else old(kind)) && events == old(events) + 1
      ensures 0 <= m && |old(data)| <= m ==> kind == old(kind) && events == old(events)
    {
      if m < 0 {
        return Fail(NegativeLimit);
      }
      TrimIsRemoveFront(data, m);
      maxCount := m;
      var count := |data|;
      if count > m {
        var _ := Delete(0, count - m - 1, true);
      }
      return Pass;
    }

    /** `setMaximumItemAge`: a negative limit is refused; otherwise the new
        limit is applied at once. */
    method SetMaximumItemAge(periods: int) returns (r: Outcome<SeriesError>)
      requires Valid() && periods <= LongMax
      modifies this
      ensures Valid() && maxCount == old(maxCount) && kind == old(kind)
      ensures periods < 0 ==>
        r == Fail(NegativeLimit) && maxAge == old(maxAge) &&
        data == old(data) && events == old(events)
      ensures 0 <= periods ==>
        r == Pass && maxAge == periods &&
        data == Aged(old(data), periods) &&
        events == old(events) + (if |data| < |old(data)| then 1 else 0)
    {
      if periods < 0 {
        return Fail(NegativeLimit);
      }
      maxAge := periods;
      RemoveAgedItems(true);
      return Pass;
    }

    /** `clear`: removes every item and unbinds the kind; an empty series is
        left as it is (its kind too). */
    method Clear()
      requires Valid()
      modifies this
      ensures Valid() && maxCount == old(maxCount) && maxAge == old(maxAge)
      ensures data == []
      ensures kind == (if old(data) != [] then None else old(kind))
      ensures events == old(events) + (if old(data) != [] then 1 else 0)
    {
      if |data| > 0 {
        data := [];
        kind := None;
        events := events + 1;
      }
    }

    /** `delete(period)`: removes the item with that period, if any, unbinding
        the kind when the series becomes empty. */
    method DeletePeriod(p: Period)
      requires Valid()
      modifies this
      ensures Valid() && maxCount == old(maxCount) && maxAge == old(maxAge)
      ensures var i := IndexOf(old(data), p);
        (i < 0 ==> data == old(data) && kind == old(kind) && events == old(events)) &&
        (i >= 0 ==> data == RemoveRange(old(data), i, i) && events == old(events) + 1 &&
                    kind == (if data == [] then None else old(kind)))
    {
      var index := GetIndex(p);
      if index >= 0 {
        if kind.Some? {
          RemoveRangeKeepsInvariant(data, index, index, kind.value, maxAge);
        }
        data := RemoveRange(data, index, index);
        if data == [] {
          kind := None;
        }
        events := events + 1;
      }
    }

    /** `delete(start, end, notify)`: removes the items at positions
        `start..end` (inclusive), unbinding the kind when the series becomes
        empty. */
    method Delete(start: int, end: int, notify: bool) returns (r: Outcome<SeriesError>)
      requires Consistent()
      requires start <= end ==> 0 <= start && end < |data|
      modifies this
      ensures Consistent() && maxCount == old(maxCount) && maxAge == old(maxAge)
      ensures |data| <= |old(data)|
      ensures AgeWithin(old(data), maxAge) ==> AgeWithin(data, maxAge)
      ensures end < start ==>
        r == Fail(InvalidRange) &&
        data == old(data) && kind == old(kind) && events == old(events)
      ensures start <= end ==>
        r == Pass && data == RemoveRange(old(data), start, end) &&
        kind == (if data == [] then None else old(kind)) &&
        events == old(events) + (if notify then 1 else 0)
    {
      if end < start {
        return Fail(InvalidRange);
      }
      var d := RemoveSpan(data, start, end);
      if kind.Some? {
        RemoveRangeKeepsInvariant(data, start, end, kind.value, maxAge);
      }
      data := d;
      if data == [] {
        kind := None;
      }
      if notify {
        events := events + 1;
      }
      return Pass;
    }

    /** `createCopy(start, end)`: a new series with this key, kind and limits
        holding copies of the items at positions `start..end`; an empty series
        gives an empty copy whatever the indices. */
    method CreateCopy(start: int, end: int) returns (r: Result<OHLCSeries<S>, SeriesError>)
      requires Valid()
      requires data != [] && 0 <= start <= end ==> end < |data|
      ensures start < 0 || end < start ==> r == Failure(InvalidRange)
      ensures 0 <= start <= end ==>
        r.Success? && fresh(r.value) && r.value.Valid() &&
        r.value.key == key && r.value.kind == kind &&
        r.value.maxCount == maxCount && r.value.maxAge == maxAge &&
        r.value.data == (if data == [] then [] else data[start..end + 1])
      ensures 0 <= start <= end && data != [] && start == 0 && end == |data| - 1 ==>
        r.Success? && r.value.Equals(this)
    {
      if start < 0 || end < start {
        return Failure(InvalidRange);
      }
      var copy := new OHLCSeries<S>.EmptyCopy(this);
      if |data| > 0 {
        copy.AddSlice(data, start, end);
        assert start == 0 && end == |data| - 1 ==> copy.data == data;
      }
      return Success(copy);
    }

    /** The loop of `createCopy(start, end)`: adds the items of
        `src[start..end + 1]` to this empty series, one by one and in order. */
    method AddSlice(src: seq<Item>, start: nat, end: nat)
      requires Valid() && data == [] && start <= end < |src|
      requires Sorted(src) && |src| <= maxCount && AgeWithin(src, maxAge)
      requires kind.Some? && OfKind(src, kind.value)
      modifies this
      ensures Valid() && data == src[start..end + 1]
      ensures kind == old(kind) && maxCount == old(maxCount) && maxAge == old(maxAge)
    {
      var index := start;
      while index <= end
        invariant start <= index <= end + 1
        invariant Valid() && data == src[start..index]
        invariant kind == old(kind) && maxCount == old(maxCount) && maxAge == old(maxAge)
      {
        CopySliceStep(src, start, index, maxCount, maxAge);
        var _ := Add(src[index], true);
        index := index + 1;
      }
    }

    /** `createCopy(start, end)` by periods: the items whose periods lie in
        `[a, b]`, found by rounding `a` up and `b` down to stored indices;
        an empty selection gives an empty copy with this key, kind and limits. */
    method CreateCopyByPeriod(a: Period, b: Period) returns (r: Result<OHLCSeries<S>, SeriesError>)
      requires Valid()
      ensures a.serial > b.serial ==> r == Failure(InvalidRange)
      ensures a.serial <= b.serial ==>
        r.Success? && fresh(r.value) && r.value.Valid() &&
        r.value.key == key && r.value.kind == kind &&
        r.value.maxCount == maxCount && r.value.maxAge == maxAge &&
        r.value.data == Within(data, a, b)
    {
      if ComparePeriods(a, b) > 0 {
        return Failure(InvalidRange);
      }
      var startIndex, endIndex, emptyRange := PeriodRange(data, a, b);
      if emptyRange {
        var copy := new OHLCSeries<S>.EmptyCopy(this);
        return Success(copy);
      }
      r := CreateCopy(startIndex, endIndex);
    }

    /** `getTimePeriodsUniqueToOtherSeries`: the periods of `other`, in its
        order, that this series does not contain. */
    method GetTimePeriodsUniqueToOtherSeries(other: OHLCSeries<S>) returns (result: seq<Period>)
      requires Valid() && other.Valid()
      ensures result == UniqueTo(data, other.data)
      ensures forall p :: p in result <==> p in Periods(other.data) && IndexOf(data, p) < 0
    {
      result := [];
      var i := 0;
      while i < |other.data|
        invariant 0 <= i <= |other.data|
        invariant result == UniqueTo(data, other.data[..i])
      {
        var period := other.data[i].period;
        var index := GetIndex(period);
        assert other.data[..i + 1][..i] == other.data[..i];
        if index < 0 {
          result := result + [period];
        }
        i := i + 1;
      }
      assert other.data[..i] == other.data;
      forall p
        ensures p in result <==> p in Periods(other.data) && IndexOf(data, p) < 0
      {
        UniqueToMembers(data, other.data, p);
      }
    }

    /** `equals`: the same kind, limits, items and key. */
    function Equals(that: OHLCSeries<S>): (r: bool)
      reads this, that
      ensures r <==>
        kind == that.kind && maxAge == that.maxAge &&
        maxCount == that.maxCount && data == that.data && key == that.key
    {
      this == that ||
      (kind == that.kind && maxAge == that.maxAge && maxCount == that.maxCount &&
       |data| == |that.data| && data == that.data && key == that.key)
    }
  }
}
