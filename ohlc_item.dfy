/** One price record of a series: a time period and its open, high, low and
    close values (OHLCItem.java). */
module Items {

  /** The concrete class of a time period: the subclasses of
      `RegularTimePeriod`. A series accepts periods of one class only. */
  datatype Kind =
    | Year | Quarter | Month | Week | Day
    | Hour | Minute | Second | Millisecond | FixedMillisecond

  /** A regular time period, reduced to its kind and its serial index; periods of
      one kind are ordered by their serial index. */
  datatype Period = Period(kind: Kind, serial: int)

  /** The four values of a record. Nothing relates them to each other (high need
      not be the largest), and nothing computes with them. */
  datatype OHLC = OHLC(open: real, high: real, low: real, close: real)

  /** The value an OHLCItem holds: what a series stores, copies and compares. */
  datatype Item = Item(period: Period, ohlc: OHLC)

  /** `RegularTimePeriod.compareTo`: negative, zero or positive as `p` lies
      before, on or after `q`. Only the sign is promised; the model picks -1,
      0 and 1, so antisymmetry holds as an equation. */
  function ComparePeriods(p: Period, q: Period): (r: int)
    ensures r < 0 <==> p.serial < q.serial
    ensures r == 0 <==> p.serial == q.serial
    ensures r > 0 <==> p.serial > q.serial
    ensures -1 <= r <= 1
  {
    if p.serial < q.serial then -1 else if p.serial == q.serial then 0 else 1
  }

  /** `OHLCItem.compareTo`: items are ordered by their periods alone. */
  function CompareItems(a: Item, b: Item): (r: int)
    ensures r < 0 <==> a.period.serial < b.period.serial
    ensures r == 0 <==> a.period.serial == b.period.serial
    ensures r > 0 <==> a.period.serial > b.period.serial
  {
    ComparePeriods(a.period, b.period)
  }

  /** `setValue` on an item's value: all four values replaced, the period kept. */
  function WithValue(it: Item, v: OHLC): (r: Item)
    ensures r.period == it.period && r.ohlc == v
  {
    it.(ohlc := v)
  }

  /** Two items with the same period compare as equal, whatever their values. */
  lemma CompareIgnoresValues(a: Item, v: OHLC, w: OHLC)
    ensures CompareItems(WithValue(a, v), WithValue(a, w)) == 0
  {
  }

  /** Ordering is coarser than equality: equal items compare as 0, but comparing
      as 0 does not make two items equal. */
  lemma CompareCoarserThanEquality()
    ensures forall a: Item :: CompareItems(a, a) == 0
    ensures exists a: Item, b: Item :: CompareItems(a, b) == 0 && a != b
  {
    var p := Period(Day, 0);
    var a := Item(p, OHLC(1.0, 1.0, 1.0, 1.0));
    var b := Item(p, OHLC(2.0, 2.0, 2.0, 2.0));
    assert CompareItems(a, b) == 0 && a != b;
  }

  /** The comparison is antisymmetric and transitive, as `Comparable` requires. */
  lemma CompareIsOrder(a: Item, b: Item, c: Item)
    ensures CompareItems(a, b) == -CompareItems(b, a)
    ensures CompareItems(a, b) < 0 && CompareItems(b, c) < 0 ==> CompareItems(a, c) < 0
  {
  }

  /** OHLCItem.java: a period that never changes and a value that `SetValue`
      replaces in place. */
  class OHLCItem {
    const period: Period
    var value: OHLC

    /** The value this object holds now. */
    function AsItem(): Item
      reads this
    {
      Item(period, value)
    }

    constructor (period: Period, open: real, high: real, low: real, close: real)
      ensures GetPeriod() == period
      ensures OpenValue() == open && HighValue() == high
      ensures LowValue() == low && CloseValue() == close
      ensures YValue() == close
    {
      this.period := period;
      this.value := OHLC(open, high, low, close);
    }

    function GetPeriod(): Period
    {
      period
    }

    function OpenValue(): real
      reads this
    {
      value.open
    }

    function HighValue(): real
      reads this
    {
      value.high
    }

    function LowValue(): real
      reads this
    {
      value.low
    }

    function CloseValue(): real
      reads this
    {
      value.close
    }

    /** The y-value of an OHLC item is its close value. */
    function YValue(): (r: real)
      reads this
      ensures r == CloseValue()
    {
      CloseValue()
    }

    /** Replaces all four values; the period stays as it was. */
    method SetValue(open: real, high: real, low: real, close: real)
      modifies this
      ensures AsItem() == WithValue(old(AsItem()), OHLC(open, high, low, close))
    {
      value := OHLC(open, high, low, close);
    }

    /** `equals`: the same object, or the same period and the same four values. */
    function Equals(that: OHLCItem): (r: bool)
      reads this, that
      ensures r <==> period == that.period && value == that.value
      ensures r <==> AsItem() == that.AsItem()
    {
      this == that || (period == that.period && value == that.value)
    }

    /** `compareTo`: decided by the two periods only. */
    function CompareTo(that: OHLCItem): (r: int)
      reads this, that
      ensures r == CompareItems(AsItem(), that.AsItem())
      ensures period == that.period ==> r == 0
    {
      ComparePeriods(period, that.period)
    }

    /** `clone`: a new object equal to this one. */
    method Clone() returns (c: OHLCItem)
      ensures fresh(c)
      ensures c.Equals(this) && c.AsItem() == AsItem()
    {
      c := new OHLCItem(period, value.open, value.high, value.low, value.close);
    }
  }
}
