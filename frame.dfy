/**
 * The day's price frame, indexed by naive UTC timestamps, and the two
 * in-place edits made to it before allocation: the synthetic boundary row
 * and the daytime tariff markup.
 */
module Frame {
  import opened PricePoints

  /** The boundary row sits this many minutes after the last priced row. */
  const BoundaryOffset: Minute := 45
  /** EUR/MWh added to prices in the daytime tariff band. */
  const PeakMarkup: real := 3.0
  /** The tariff band is the index hours FirstPeakHour..LastPeakHour, both included. */
  const FirstPeakHour: int := 7
  const LastPeakHour: int := 22

  /** Hour of day of a timestamp, as the index's hour attribute gives it. */
  function HourOf(t: Minute): (h: int)
    ensures 0 <= h < 24
  {
    (t / 60) % 24
  }

  /** The daytime tariff band, by the hour of the index. */
  predicate IsPeakHour(t: Minute)
  {
    FirstPeakHour <= HourOf(t) <= LastPeakHour
  }

  /** The band depends only on the hour a timestamp falls in, and repeats every day. */
  lemma PeakHourIsHourly(t: Minute)
    ensures IsPeakHour(t) <==> IsPeakHour(t - t % 60)
    ensures IsPeakHour(t) <==> IsPeakHour(t + 24 * 60)
  {
    var h := t / 60;
    assert t - t % 60 == 60 * h;
    assert (60 * h) / 60 == h;
    assert t + 24 * 60 == 60 * (h + 24) + t % 60;
    assert (t + 24 * 60) / 60 == h + 24;
    assert (h + 24) % 24 == h % 24;
  }

  /** Rows in strictly increasing timestamp order, as the price feed delivers them. */
  predicate Chronological(s: seq<PricePoint>)
  {
    forall i, j :: 0 <= i < j < |s| ==> s[i].dt < s[j].dt
  }

  lemma StampsAt(s: seq<PricePoint>, t: Minute)
    ensures t in Stamps(s) <==> exists i :: 0 <= i < |s| && s[i].dt == t
  {
    if t in Stamps(s) {
      var i :| 0 <= i < |s| && Stamps(s)[i] == t;
      assert s[i].dt == t;
    }
    if exists i :: 0 <= i < |s| && s[i].dt == t {
      var i :| 0 <= i < |s| && s[i].dt == t;
      assert Stamps(s)[i] == t;
    }
  }

  /**
   * Assigning a price to a key: every row already carrying that key gets
   * the new price, and when no row carries it a new row is appended.
   */
  function LocSet(s: seq<PricePoint>, key: Minute, value: real): (r: seq<PricePoint>)
    ensures key in Stamps(s) ==> |r| == |s|
    ensures key !in Stamps(s) ==> r == s + [PricePoint(key, value)]
    ensures forall i :: 0 <= i < |s| ==> r[i].dt == s[i].dt
    ensures forall i :: 0 <= i < |s| && s[i].dt != key ==> r[i] == s[i]
    ensures forall i :: 0 <= i < |r| ==> r[i].dt == key ==> r[i].price == value
    ensures forall t :: t in Stamps(r) <==> t in Stamps(s) || t == key
  {
    var r := if key in Stamps(s) then
               seq(|s|, i requires 0 <= i < |s| => if s[i].dt == key then PricePoint(key, value) else s[i])
             else
               s + [PricePoint(key, value)];
    assert forall i :: 0 <= i < |s| ==> r[i].dt == s[i].dt;
    assert |r| == |s| || r[|s|] == PricePoint(key, value);
    assert forall t :: t in Stamps(r) <==> t in Stamps(s) || t == key by {
      forall t ensures t in Stamps(r) <==> t in Stamps(s) || t == key {
        StampsAt(r, t);
        StampsAt(s, t);
        StampsAt(s, key);
      }
    }
    r
  }

  function Last(s: seq<PricePoint>): PricePoint
    requires |s| > 0
  {
    s[|s| - 1]
  }

  /** The frame with the boundary row: 45 minutes after the last row, at the last row's price. */
  function WithBoundary(s: seq<PricePoint>): (r: seq<PricePoint>)
    requires |s| > 0
    ensures |s| <= |r| <= |s| + 1
    ensures forall i :: 0 <= i < |s| ==> r[i].dt == s[i].dt
    ensures forall i :: 0 <= i < |s| && s[i].dt != Last(s).dt + BoundaryOffset ==> r[i] == s[i]
    ensures Last(s).dt + BoundaryOffset in Stamps(s) ==> |r| == |s|
    ensures Last(s).dt + BoundaryOffset !in Stamps(s) ==>
      r == s + [PricePoint(Last(s).dt + BoundaryOffset, Last(s).price)]
    ensures Last(s).dt + BoundaryOffset in Stamps(r)
    ensures forall i :: 0 <= i < |r| && r[i].dt == Last(s).dt + BoundaryOffset ==> r[i].price == Last(s).price
  {
    LocSet(s, Last(s).dt + BoundaryOffset, Last(s).price)
  }

  /** On a chronological frame the boundary key is new: the row is appended and order is kept. */
  lemma BoundaryAppends(s: seq<PricePoint>)
    requires |s| > 0 && Chronological(s)
    ensures WithBoundary(s) == s + [PricePoint(Last(s).dt + BoundaryOffset, Last(s).price)]
    ensures Chronological(WithBoundary(s))
    ensures |WithBoundary(s)| == |s| + 1
  {
    var b := Last(s).dt + BoundaryOffset;
    forall i | 0 <= i < |s| ensures s[i].dt < b {
      assert i == |s| - 1 || s[i].dt < Last(s).dt;
    }
    StampsAt(s, b);
  }

  /** The tariff markup: plus PeakMarkup in the daytime band, timestamps untouched. */
  function MarkPeakHours(s: seq<PricePoint>): (r: seq<PricePoint>)
    ensures |r| == |s|
    ensures Stamps(r) == Stamps(s)
    ensures forall i :: 0 <= i < |s| ==>
      r[i].price == if IsPeakHour(s[i].dt) then s[i].price + PeakMarkup else s[i].price
  {
    var r := seq(|s|, i requires 0 <= i < |s| =>
               if IsPeakHour(s[i].dt) then PricePoint(s[i].dt, s[i].price + PeakMarkup) else s[i]);
    assert forall i :: 0 <= i < |s| ==> Stamps(r)[i] == Stamps(s)[i];
    r
  }

  /**
   * After both edits a chronological frame whose last row is on the hour ends
   * in two rows with the same price: the boundary row shares the last row's
   * hour, so the markup treats both alike.
   */
  lemma BoundaryKeepsLastPrice(s: seq<PricePoint>)
    requires |s| > 0 && Chronological(s)
    requires Last(s).dt % 60 == 0
    ensures var r := MarkPeakHours(WithBoundary(s));
      |r| == |s| + 1 && r[|s|].price == r[|s| - 1].price
      && r[|s|].dt == Last(s).dt + BoundaryOffset
  {
    BoundaryAppends(s);
    var t := Last(s).dt;
    assert (t + BoundaryOffset) / 60 == t / 60;
  }

  /** The price frame that the daily run edits in place. */
  class PriceFrame {
    var points: seq<PricePoint>

    constructor (rows: seq<PricePoint>)
      ensures points == rows
    {
      points := rows;
    }

    /** Assign value to the row(s) labelled key, or append a row with that key. */
    method SetPrice(key: Minute, value: real)
      modifies this
      ensures points == LocSet(old(points), key, value)
    {
      if key in Stamps(points) {
        points := seq(|points|, i requires 0 <= i < |points| reads this =>
                    if points[i].dt == key then PricePoint(key, value) else points[i]);
      } else {
        points := points + [PricePoint(key, value)];
      }
    }

    /** Repeat the last row's price 45 minutes after its timestamp. */
    method AppendBoundary()
      requires |points| > 0
      modifies this
      ensures points == WithBoundary(old(points))
    {
      var lastIndex := points[|points| - 1].dt;
      var lastValue := points[|points| - 1].price;
      SetPrice(lastIndex + BoundaryOffset, lastValue);
    }

    /** Add the daytime tariff markup to every row in the band. */
    method TotalPrices()
      modifies this
      ensures points == MarkPeakHours(old(points))
    {
      points := seq(|points|, i requires 0 <= i < |points| reads this =>
                  if IsPeakHour(points[i].dt) then PricePoint(points[i].dt, points[i].price + PeakMarkup)
                  else points[i]);
    }
  }
}
