/** The business summary of the statistics utilities (`calculate_business_metrics` in
    src/utils_stats.py): overall rates, per-hotel rates, the revenue lost to cancellations and
    the estimated occupancy. A pandas mean of no values is NaN, here `None`. */
module BusinessMetrics {
  import opened Common
  import Stats

  /** The columns the summary reads from one booking. */
  datatype Booking = Booking(
    hotel: Option<string>,
    isCanceled: int,
    leadTime: Option<real>,
    adr: Option<real>,
    totalStayNights: int)

  /** The bookings, and whether the optional `adr` and `total_stay_nights` columns exist. */
  datatype BookingFrame = BookingFrame(rows: seq<Booking>, hasAdr: bool, hasStayNights: bool)

  /** `{hotel}_cancellation_rate` and `{hotel}_avg_adr`. */
  datatype HotelMetrics = HotelMetrics(cancellationRate: Option<real>, avgAdr: Option<real>)

  /** The metrics dictionary. `potentialRevenueLoss` is `None` when the key is never set. */
  datatype Metrics = Metrics(
    totalBookings: nat,
    cancellationRate: Option<real>,
    avgLeadTime: Option<real>,
    avgAdr: Option<real>,
    perHotel: map<Option<string>, HotelMetrics>,
    potentialRevenueLoss: Option<real>,
    estimatedOccupancyRate: real)

  predicate Canceled(b: Booking) { b.isCanceled == 1 }

  function CanceledFlags(rows: seq<Booking>): (r: seq<real>)
    ensures |r| == |rows| && forall i :: 0 <= i < |rows| ==> r[i] == rows[i].isCanceled as real
  {
    if rows == [] then [] else [rows[0].isCanceled as real] + CanceledFlags(rows[1..])
  }

  /** The `lead_time` column, a float column that may hold NaN. */
  function LeadTimes(rows: seq<Booking>): (r: seq<Option<real>>)
    ensures |r| == |rows| && forall i :: 0 <= i < |rows| ==> r[i] == rows[i].leadTime
  {
    if rows == [] then [] else [rows[0].leadTime] + LeadTimes(rows[1..])
  }

  /** The mask `df['adr'] > 0`: a missing adr fails the comparison. */
  predicate HasPositiveAdr(b: Booking) { b.adr.Some? && b.adr.value > 0.0 }

  function AdrValue(b: Booking): real { b.adr.GetOr(0.0) }

  /** `df[df['adr'] > 0]['adr']`: the adr of every row the mask keeps, in row order. */
  function PositiveAdrs(rows: seq<Booking>): (r: seq<real>)
    ensures r == Map(AdrValue, Filter(rows, HasPositiveAdr))
    ensures forall i :: 0 <= i < |r| ==> r[i] > 0.0
  {
    if rows == [] then []
    else if rows[0].adr.Some? && rows[0].adr.value > 0.0 then [rows[0].adr.value] + PositiveAdrs(rows[1..])
    else PositiveAdrs(rows[1..])
  }

  /** `df[col].mean()` for `adr > 0`, or 0 without an adr column. */
  function AvgAdr(rows: seq<Booking>, hasAdr: bool): Option<real> {
    if hasAdr then Mean(PositiveAdrs(rows)) else Some(0.0)
  }

  /** `df[df['hotel'] == h]`: no row equals a missing hotel, not even a row whose hotel is missing. */
  function HotelRows(rows: seq<Booking>, h: Option<string>): (r: seq<Booking>)
    ensures forall b :: b in r <==> b in rows && h.Some? && b.hotel == h
    ensures forall b :: multiset(r)[b] == if h.Some? && b.hotel == h then multiset(rows)[b] else 0
    ensures Subseq(r, rows)
  {
    FilterIsSubseq(rows, (b: Booking) => b.hotel == h);
    FilterCounts(rows, (b: Booking) => b.hotel == h);
    if h.None? then [] else Filter(rows, (b: Booking) => b.hotel == h)
  }

  function HotelMetricsOf(f: BookingFrame, h: Option<string>): HotelMetrics {
    var rows := HotelRows(f.rows, h);
    HotelMetrics(Mean(CanceledFlags(rows)), AvgAdr(rows, f.hasAdr))
  }

  function Hotels(rows: seq<Booking>): (r: seq<Option<string>>)
    ensures |r| == |rows| && forall i :: 0 <= i < |rows| ==> r[i] == rows[i].hotel
  {
    if rows == [] then [] else [rows[0].hotel] + Hotels(rows[1..])
  }

  /** `(canceled['adr'] * canceled['total_stay_nights']).sum()`: NaN products are skipped. */
  function RevenueLoss(rows: seq<Booking>): real {
    if rows == [] then 0.0
    else
      (if Canceled(rows[0]) && rows[0].adr.Some? then rows[0].adr.value * rows[0].totalStayNights as real else 0.0)
      + RevenueLoss(rows[1..])
  }

  function TotalNights(rows: seq<Booking>): int {
    if rows == [] then 0 else rows[0].totalStayNights + TotalNights(rows[1..])
  }

  function CanceledNights(rows: seq<Booking>): int {
    if rows == [] then 0
    else (if Canceled(rows[0]) then rows[0].totalStayNights else 0) + CanceledNights(rows[1..])
  }

  /** `(total - canceled) / total if total > 0 else 0`. */
  function Occupancy(total: int, canceled: int): (r: real)
    ensures total <= 0 ==> r == 0.0
  {
    if total > 0 then (total - canceled) as real / total as real else 0.0
  }

  function OccupancyOf(f: BookingFrame): real {
    if f.hasStayNights then Occupancy(TotalNights(f.rows), CanceledNights(f.rows)) else 0.0
  }

  /** `calculate_business_metrics(df)`: the general figures, then one entry per distinct hotel
      value (a missing hotel included), then the revenue loss and the occupancy. */
  method CalculateBusinessMetrics(f: BookingFrame) returns (m: Metrics)
    ensures m.totalBookings == |f.rows|
    ensures m.cancellationRate == Mean(CanceledFlags(f.rows))
    ensures m.avgLeadTime == Mean(Present(LeadTimes(f.rows)))
    ensures m.avgAdr == AvgAdr(f.rows, f.hasAdr)
    ensures forall h :: h in m.perHotel <==> h in Hotels(f.rows)
    ensures forall h :: h in m.perHotel ==> m.perHotel[h] == HotelMetricsOf(f, h)
    ensures m.potentialRevenueLoss == if f.hasAdr && f.hasStayNights then Some(RevenueLoss(f.rows)) else None
    ensures m.estimatedOccupancyRate == OccupancyOf(f)
  {
    var hotels := Distinct(Hotels(f.rows));
    var perHotel: map<Option<string>, HotelMetrics> := map[];
    var i := 0;
    while i < |hotels|
      invariant 0 <= i <= |hotels|
      invariant forall h :: h in perHotel <==> h in hotels[..i]
      invariant forall h :: h in perHotel ==> perHotel[h] == HotelMetricsOf(f, h)
    {
      assert hotels[..i + 1] == hotels[..i] + [hotels[i]];
      perHotel := perHotel[hotels[i] := HotelMetricsOf(f, hotels[i])];
      i := i + 1;
    }
    assert hotels[..i] == hotels;
    var loss := if f.hasAdr && f.hasStayNights then Some(RevenueLoss(f.rows)) else None;
    m := Metrics(|f.rows|, Mean(CanceledFlags(f.rows)), Mean(Present(LeadTimes(f.rows))), AvgAdr(f.rows, f.hasAdr),
      perHotel, loss, OccupancyOf(f));
  }

  // ---------------------------------------------------------------------------
  // Properties

  predicate ValidBooking(b: Booking) { 0 <= b.isCanceled <= 1 && b.totalStayNights >= 0 }

  lemma {:induction false} NightsBounds(rows: seq<Booking>)
    requires forall i :: 0 <= i < |rows| ==> ValidBooking(rows[i])
    ensures 0 <= CanceledNights(rows) <= TotalNights(rows)
  {
    if rows != [] {
      NightsBounds(rows[1..]);
    }
  }

  /** With non-negative stays and 0/1 cancellation flags the occupancy lies in [0, 1]. */
  lemma OccupancyInUnitInterval(f: BookingFrame)
    requires forall i :: 0 <= i < |f.rows| ==> ValidBooking(f.rows[i])
    ensures 0.0 <= OccupancyOf(f) <= 1.0
  {
    NightsBounds(f.rows);
    var t, c := TotalNights(f.rows), CanceledNights(f.rows);
    if f.hasStayNights && t > 0 {
      Stats.RatioInUnitInterval((t - c) as real, t as real);
    }
  }

  /** Only canceled bookings lose revenue: dropping every other row changes nothing. */
  lemma {:induction false} RevenueLossOnlyCanceled(rows: seq<Booking>)
    ensures RevenueLoss(rows) == RevenueLoss(Filter(rows, Canceled))
  {
    if rows != [] {
      RevenueLossOnlyCanceled(rows[1..]);
    }
  }

  /** With non-negative prices and stays the loss is non-negative. */
  lemma {:induction false} RevenueLossNonNegative(rows: seq<Booking>)
    requires forall i :: 0 <= i < |rows| ==> rows[i].totalStayNights >= 0
    requires forall i :: 0 <= i < |rows| ==> rows[i].adr.Some? ==> rows[i].adr.value >= 0.0
    ensures RevenueLoss(rows) >= 0.0
  {
    if rows != [] {
      RevenueLossNonNegative(rows[1..]);
      if rows[0].adr.Some? {
        Stats.ProductNonNegative(rows[0].adr.value, rows[0].totalStayNights as real);
      }
    }
  }

  lemma {:induction false} SumPositive(xs: seq<real>)
    requires xs != [] && forall i :: 0 <= i < |xs| ==> xs[i] > 0.0
    ensures Sum(xs) > 0.0
  {
    if |xs| > 1 {
      SumPositive(xs[1..]);
    } else {
      assert xs[1..] == [];
    }
  }

  lemma {:induction false} SumOfFlags(xs: seq<real>)
    requires forall i :: 0 <= i < |xs| ==> 0.0 <= xs[i] <= 1.0
    ensures 0.0 <= Sum(xs) <= |xs| as real
  {
    if xs != [] {
      SumOfFlags(xs[1..]);
    }
  }

  lemma QuotientPositive(a: real, n: real)
    requires a > 0.0 && n > 0.0
    ensures a / n > 0.0
  {
  }

  /** The average adr is taken over positive prices only, so when defined it is positive. */
  lemma AvgAdrPositive(rows: seq<Booking>)
    requires AvgAdr(rows, true).Some?
    ensures AvgAdr(rows, true).value > 0.0
  {
    var xs := PositiveAdrs(rows);
    SumPositive(xs);
    QuotientPositive(Sum(xs), |xs| as real);
  }

  /** With 0/1 cancellation flags, every cancellation rate that is defined lies in [0, 1]. */
  lemma CancellationRateInUnitInterval(rows: seq<Booking>)
    requires forall i :: 0 <= i < |rows| ==> ValidBooking(rows[i])
    requires Mean(CanceledFlags(rows)).Some?
    ensures 0.0 <= Mean(CanceledFlags(rows)).value <= 1.0
  {
    var xs := CanceledFlags(rows);
    SumOfFlags(xs);
    Stats.RatioInUnitInterval(Sum(xs), |xs| as real);
  }

  /** A hotel's rate is over that hotel's bookings only; a missing hotel value has none. */
  lemma MissingHotelHasNoRate(f: BookingFrame)
    requires f.hasAdr
    ensures HotelMetricsOf(f, None) == HotelMetrics(None, None)
  {
  }
}
