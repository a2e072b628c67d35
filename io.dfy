/** The loading, derivation and cleaning rules of src/utils_io.py: the integer coercion of
    `load_hotel_data`, the derived columns of `create_derived_features`, the row filters of
    `clean_data` and the data-quality report. A missing value (NaN) is `None`. */
module DataIO {
  import opened Common
  import Stats

  // ---------------------------------------------------------------------------
  // load_hotel_data: integer coercion

  /** A raw cell as read from the file: nothing, a number, or text that is not a number. */
  datatype Cell = Missing | Number(x: real) | Text(s: string)

  /** Truncation toward zero, as a cast from float to int does. */
  function TruncateTowardZero(x: real): (k: int)
    ensures 0.0 <= x ==> 0 <= k && k as real <= x < k as real + 1.0
    ensures x < 0.0 ==> k <= 0 && k as real - 1.0 < x <= k as real
  {
    if x >= 0.0 then x.Floor else -((-x).Floor)
  }

  /** `pd.to_numeric(errors='coerce').fillna(0).astype(int)` on one cell. */
  function CoerceInt(c: Cell): (k: int)
    ensures c.Number? ==> k == TruncateTowardZero(c.x)
    ensures !c.Number? ==> k == 0
  {
    if c.Number? then TruncateTowardZero(c.x) else 0
  }

  predicate IsIntegral(c: Cell) { c.Number? && c.x == c.x.Floor as real }

  function CoerceColumn(cells: seq<Cell>): (r: seq<Cell>)
    ensures |r| == |cells|
    ensures forall i :: 0 <= i < |cells| ==> r[i] == Number(CoerceInt(cells[i]) as real)
  {
    if cells == [] then [] else [Number(CoerceInt(cells[0]) as real)] + CoerceColumn(cells[1..])
  }

  /** The columns converted to integers on loading. */
  const IntColumns: seq<string> := ["is_canceled", "arrival_date_week_number", "arrival_date_day_of_month",
    "stays_in_weekend_nights", "stays_in_week_nights", "adults", "babies",
    "is_repeated_guest", "previous_cancellations", "previous_bookings_not_canceled",
    "booking_changes", "required_car_parking_spaces", "total_of_special_requests"]

  /** The frame as loaded, one cell sequence per column name. */
  class RawFrame {
    var columnNames: seq<string>
    var cells: map<string, seq<Cell>>

    /** The column list and the cell map name the same columns. */
    ghost predicate Valid()
      reads this
    {
      forall c :: c in cells <==> c in columnNames
    }

    constructor (columnNames: seq<string>, cells: map<string, seq<Cell>>)
      requires forall c :: c in cells <==> c in columnNames
      ensures this.columnNames == columnNames && this.cells == cells
      ensures Valid()
    {
      this.columnNames := columnNames;
      this.cells := cells;
    }

    /** `for col in cols: if col in df.columns: df[col] = ...`: every listed column that exists
        is coerced in place, every other column is left alone. */
    method CoerceColumns(cols: seq<string>)
      requires Valid()
      modifies this
      ensures Valid()
      ensures columnNames == old(columnNames)
      ensures cells.Keys == old(cells.Keys)
      ensures forall c :: c in cells ==> cells[c] == if c in cols then CoerceColumn(old(cells[c])) else old(cells[c])
    {
      var i := 0;
      while i < |cols|
        invariant 0 <= i <= |cols|
        invariant columnNames == old(columnNames)
        invariant cells.Keys == old(cells.Keys)
        invariant forall c :: c in cells ==> cells[c] == if c in cols[..i] then CoerceColumn(old(cells[c])) else old(cells[c])
      {
        var col := cols[i];
        assert cols[..i + 1] == cols[..i] + [col];
        if col in cells {
          CoerceIdempotent(old(cells[col]));
          assert CoerceColumn(cells[col]) == CoerceColumn(old(cells[col]));
          cells := cells[col := CoerceColumn(cells[col])];
        }
        i := i + 1;
      }
      assert cols[..i] == cols;
    }

    /** The integer step of `load_hotel_data`: the columns of `IntColumns` that exist are coerced. */
    method CoerceIntColumns()
      requires Valid()
      modifies this
      ensures Valid()
      ensures columnNames == old(columnNames)
      ensures cells.Keys == old(cells.Keys)
      ensures forall c :: c in cells ==> cells[c] == if c in IntColumns then CoerceColumn(old(cells[c])) else old(cells[c])
    {
      CoerceColumns(IntColumns);
    }
  }

  /** Truncating an integer gives it back. */
  lemma TruncateInteger(k: int)
    ensures TruncateTowardZero(k as real) == k
  {
    assert (k as real).Floor == k;
    assert (-(k as real)).Floor == -k;
  }

  /** A coerced cell is an integer, so coercing twice is coercing once. */
  lemma CoerceIdempotent(cells: seq<Cell>)
    ensures CoerceColumn(CoerceColumn(cells)) == CoerceColumn(cells)
  {
    var once := CoerceColumn(cells);
    forall i | 0 <= i < |cells|
      ensures CoerceColumn(once)[i] == once[i]
    {
      TruncateInteger(CoerceInt(cells[i]));
    }
  }

  /** After coercion every cell holds an integer; a missing or non-numeric cell holds 0 and a
      number is truncated toward zero. */
  lemma CoercedColumnIsIntegral(cells: seq<Cell>)
    ensures forall i :: 0 <= i < |cells| ==> IsIntegral(CoerceColumn(cells)[i])
    ensures forall i :: 0 <= i < |cells| && !cells[i].Number? ==> CoerceColumn(cells)[i] == Number(0.0)
  {
    forall i | 0 <= i < |cells|
      ensures IsIntegral(CoerceColumn(cells)[i])
    {
      var k := CoerceInt(cells[i]);
      assert (k as real).Floor == k;
    }
  }

  // ---------------------------------------------------------------------------
  // create_derived_features: one booking's derived values

  /** One booking: the columns that the derivation and the cleaning read, and the rest. */
  datatype RawBooking = RawBooking(
    hotel: Option<string>,
    leadTime: Option<real>,
    arrivalMonth: Option<string>,
    adults: int,
    children: Option<real>,
    babies: int,
    weekendNights: int,
    weekNights: int,
    adr: Option<real>,
    reservedRoomType: Option<string>,
    assignedRoomType: Option<string>,
    /** Every other column of the row: deduplication compares these too. */
    others: seq<Cell>)

  /** `adults + children.fillna(0) + babies`. */
  function TotalGuests(b: RawBooking): real {
    b.adults as real + b.children.GetOr(0.0) + b.babies as real
  }

  function TotalStayNights(b: RawBooking): int {
    b.weekendNights + b.weekNights
  }

  /** Ascending bin edges, each strictly above the one before. */
  ghost predicate Ascending(edges: seq<real>) {
    forall i, j :: 0 <= i < j < |edges| ==> edges[i] < edges[j]
  }

  /** x falls in bin k of the right-closed bins (edges[k], edges[k+1]], the last bin unbounded. */
  ghost predicate InBin(edges: seq<real>, x: real, k: nat) {
    k < |edges| && edges[k] < x && (k + 1 == |edges| || x <= edges[k + 1])
  }

  /** `pd.cut(x, bins=edges + [inf], right=True)` as a bin index; nothing at or below the first edge. */
  function BinIndex(edges: seq<real>, x: real): (k: Option<nat>)
    ensures k.Some? ==> k.value < |edges|
  {
    if edges == [] || x <= edges[0] then None
    else
      match BinIndex(edges[1..], x)
      case None => Some(0)
      case Some(j) => Some(j + 1)
  }

  /** The bin index is the unique bin holding x, and there is none exactly when x is missing
      from every bin. */
  lemma {:induction false} BinIndexFindsBin(edges: seq<real>, x: real)
    requires Ascending(edges)
    ensures forall k: nat :: BinIndex(edges, x) == Some(k) <==> InBin(edges, x, k)
  {
    if edges != [] && x > edges[0] {
      var tail := edges[1..];
      assert Ascending(tail) by {
        forall i, j | 0 <= i < j < |tail| ensures tail[i] < tail[j] {
          assert tail[i] == edges[i + 1] && tail[j] == edges[j + 1];
        }
      }
      BinIndexFindsBin(tail, x);
      forall k: nat
        ensures BinIndex(edges, x) == Some(k) <==> InBin(edges, x, k)
      {
        if 0 < k < |edges| {
          assert InBin(edges, x, k) <==> InBin(tail, x, k - 1) by {
            assert edges[k] == tail[k - 1];
            if k + 1 < |edges| {
              assert edges[k + 1] == tail[k];
            }
          }
        } else if |edges| > 1 {
          if InBin(tail, x, 0) {
            assert x > edges[1];
          }
          if x > edges[1] {
            assert InBin(tail, x, 0) || BinIndex(tail, x).Some?;
          }
        }
      }
    }
  }

  const LeadTimeEdges: seq<real> := [0.0, 7.0, 14.0, 30.0, 60.0, 90.0, 180.0, 365.0]
  const LeadTimeLabels: seq<string> := ["0-7", "8-14", "15-30", "31-60", "61-90", "91-180", "181-365", ">365"]

  const StayEdges: seq<real> := [0.0, 1.0, 3.0, 7.0, 14.0]
  const StayLabels: seq<string> := ["1 night", "2-3 nights", "4-7 nights", "8-14 nights", ">14 nights"]

  /** `lead_time_bucket`: a missing lead time gets no bucket. */
  function LeadTimeBucket(leadTime: Option<real>): Option<string> {
    if leadTime.None? then None
    else
      match BinIndex(LeadTimeEdges, leadTime.value)
      case None => None
      case Some(k) => Some(LeadTimeLabels[k])
  }

  function LeadTimeBucketOf(b: RawBooking): Option<string> {
    LeadTimeBucket(b.leadTime)
  }

  /** `stay_duration_category`. */
  function StayDurationCategory(nights: int): Option<string> {
    match BinIndex(StayEdges, nights as real)
    case None => None
    case Some(k) => Some(StayLabels[k])
  }

  lemma LeadTimeEdgesAscending()
    ensures Ascending(LeadTimeEdges)
  {
  }

  lemma StayEdgesAscending()
    ensures Ascending(StayEdges)
  {
  }

  /** Lead-time buckets are right-closed: a lead time in (edges[k], edges[k+1]] gets label k, one
      above 365 gets '>365', and zero, a negative or a missing lead time gets none. */
  lemma LeadTimeBucketSpec(leadTime: Option<real>)
    ensures forall k :: 0 <= k < |LeadTimeLabels| ==>
      (LeadTimeBucket(leadTime) == Some(LeadTimeLabels[k]) <==> leadTime.Some? && InBin(LeadTimeEdges, leadTime.value, k))
    ensures LeadTimeBucket(leadTime).None? <==> leadTime.None? || leadTime.value <= 0.0
  {
    LeadTimeEdgesAscending();
    if leadTime.Some? {
      BinIndexFindsBin(LeadTimeEdges, leadTime.value);
    }
  }

  /** Stay buckets: (0,1] is one night, ..., above 14 is '>14 nights', and no nights gets none. */
  lemma StayDurationSpec(nights: int)
    ensures forall k :: 0 <= k < |StayLabels| ==>
      (StayDurationCategory(nights) == Some(StayLabels[k]) <==> InBin(StayEdges, nights as real, k))
    ensures StayDurationCategory(nights).None? <==> nights <= 0
  {
    StayEdgesAscending();
    BinIndexFindsBin(StayEdges, nights as real);
  }

  datatype Season = Winter | Spring | Summer | Fall

  const Months: seq<string> := ["January", "February", "March", "April", "May", "June",
    "July", "August", "September", "October", "November", "December"]

  /** `season_map`. */
  const SeasonMap: map<string, Season> := map[
    "December" := Winter, "January" := Winter, "February" := Winter,
    "March" := Spring, "April" := Spring, "May" := Spring,
    "June" := Summer, "July" := Summer, "August" := Summer,
    "September" := Fall, "October" := Fall, "November" := Fall]

  /** `df['arrival_date_month'].map(season_map)`: anything that is not a month name maps to NaN. */
  function SeasonOf(month: Option<string>): Option<Season> {
    if month.Some? && month.value in SeasonMap then Some(SeasonMap[month.value]) else None
  }

  function SeasonOfArrival(b: RawBooking): Option<Season> {
    SeasonOf(b.arrivalMonth)
  }

  /** The three months of each season. */
  function SeasonMonths(s: Season): seq<string> {
    match s
    case Winter => ["December", "January", "February"]
    case Spring => ["March", "April", "May"]
    case Summer => ["June", "July", "August"]
    case Fall => ["September", "October", "November"]
  }

  /** Every month name has a season and anything else has none. */
  lemma SeasonMapDomain()
    ensures forall m :: SeasonOf(Some(m)).Some? <==> m in Months
  {
    assert SeasonMap.Keys == set m | m in Months;
  }

  /** Exactly three distinct month names map to each season. */
  lemma ThreeMonthsPerSeason(s: Season)
    ensures |SeasonMonths(s)| == 3 && NoDup(SeasonMonths(s))
    ensures forall m :: SeasonOf(Some(m)) == Some(s) <==> m in SeasonMonths(s)
  {
  }

  /** `(df['hotel'] == 'City Hotel').astype(int)`. */
  function IsCityHotel(b: RawBooking): (flag: int)
    ensures flag == 1 <==> b.hotel == Some("City Hotel")
    ensures flag == 0 <==> b.hotel != Some("City Hotel")
  {
    if b.hotel == Some("City Hotel") then 1 else 0
  }

  /** `((children.fillna(0) > 0) | (babies > 0)).astype(int)`. */
  function IsFamily(b: RawBooking): (flag: int)
    ensures flag == 1 <==> b.children.GetOr(0.0) > 0.0 || b.babies > 0
    ensures flag == 0 <==> !(b.children.GetOr(0.0) > 0.0 || b.babies > 0)
  {
    if b.children.GetOr(0.0) > 0.0 || b.babies > 0 then 1 else 0
  }

  /** `astype(str)` on a label: a missing label prints as "nan". */
  function AsText(v: Option<string>): string {
    if v.None? then "nan" else v.value
  }

  /** `(assigned.astype(str) != reserved.astype(str)).astype(int)`: two missing room types compare
      equal, as "nan" and "nan". */
  function RoomTypeDiff(b: RawBooking): (flag: int)
    ensures flag == 1 <==> AsText(b.assignedRoomType) != AsText(b.reservedRoomType)
    ensures flag == 0 <==> AsText(b.assignedRoomType) == AsText(b.reservedRoomType)
    ensures b.assignedRoomType.None? && b.reservedRoomType.None? ==> flag == 0
  {
    if AsText(b.assignedRoomType) != AsText(b.reservedRoomType) then 1 else 0
  }

  // ---------------------------------------------------------------------------
  // create_derived_features: the derived frame

  /** The copy `create_derived_features` works on: the original rows and the columns it adds. */
  class DerivedFrame {
    var rows: seq<RawBooking>
    var totalGuests: seq<real>
    var totalStayNights: seq<int>
    var leadTimeBucket: seq<Option<string>>
    var isCityHotel: seq<int>
    var isFamily: seq<int>
    /** Present only when both room-type columns are. */
    var roomTypeDiff: Option<seq<int>>
    var season: seq<Option<Season>>
    var stayDurationCategory: seq<Option<string>>

    /** `df.copy()`: the rows, with no derived column yet. */
    constructor Copy(rows: seq<RawBooking>)
      ensures this.rows == rows
      ensures totalGuests == [] && totalStayNights == [] && leadTimeBucket == [] && isCityHotel == []
      ensures isFamily == [] && roomTypeDiff == None && season == [] && stayDurationCategory == []
    {
      this.rows := rows;
      totalGuests, totalStayNights, leadTimeBucket, isCityHotel := [], [], [], [];
      isFamily, roomTypeDiff, season, stayDurationCategory := [], None, [], [];
    }

    /** `total_guests` and `total_stay_nights`. */
    method AddCounts()
      modifies this
      ensures rows == old(rows) && totalGuests == Map(TotalGuests, rows) && totalStayNights == Map(TotalStayNights, rows)
      ensures leadTimeBucket == old(leadTimeBucket) && isCityHotel == old(isCityHotel) && isFamily == old(isFamily)
      ensures roomTypeDiff == old(roomTypeDiff) && season == old(season) && stayDurationCategory == old(stayDurationCategory)
    {
      totalGuests := Map(TotalGuests, rows);
      totalStayNights := Map(TotalStayNights, rows);
    }

    /** `lead_time_bucket`, `season` and `stay_duration_category`, the last one binned from
        `total_stay_nights`. */
    method AddCategories()
      modifies this
      ensures rows == old(rows) && totalGuests == old(totalGuests) && totalStayNights == old(totalStayNights)
      ensures isCityHotel == old(isCityHotel) && isFamily == old(isFamily) && roomTypeDiff == old(roomTypeDiff)
      ensures leadTimeBucket == Map(LeadTimeBucketOf, rows) && season == Map(SeasonOfArrival, rows)
      ensures stayDurationCategory == Map(StayDurationCategory, totalStayNights)
    {
      leadTimeBucket := Map(LeadTimeBucketOf, rows);
      season := Map(SeasonOfArrival, rows);
      stayDurationCategory := Map(StayDurationCategory, totalStayNights);
    }

    /** `is_city_hotel`, `is_family` and, when both room-type columns exist, `room_type_diff`. */
    method AddFlags(hasRoomTypes: bool)
      modifies this
      ensures rows == old(rows) && totalGuests == old(totalGuests) && totalStayNights == old(totalStayNights)
      ensures leadTimeBucket == old(leadTimeBucket) && season == old(season) && stayDurationCategory == old(stayDurationCategory)
      ensures isCityHotel == Map(IsCityHotel, rows) && isFamily == Map(IsFamily, rows)
      ensures roomTypeDiff == if hasRoomTypes then Some(Map(RoomTypeDiff, rows)) else old(roomTypeDiff)
    {
      isCityHotel := Map(IsCityHotel, rows);
      isFamily := Map(IsFamily, rows);
      if hasRoomTypes {
        roomTypeDiff := Some(Map(RoomTypeDiff, rows));
      }
    }
  }

  /** `create_derived_features(df)`: a fresh frame with the input rows and, row by row, each
      derived column. The input is a value and is not changed. */
  method CreateDerivedFeatures(rows: seq<RawBooking>, hasRoomTypes: bool) returns (d: DerivedFrame)
    ensures fresh(d) && d.rows == rows
    ensures d.totalGuests == Map(TotalGuests, rows)
    ensures d.totalStayNights == Map(TotalStayNights, rows)
    ensures d.leadTimeBucket == Map(LeadTimeBucketOf, rows)
    ensures d.isCityHotel == Map(IsCityHotel, rows)
    ensures d.isFamily == Map(IsFamily, rows)
    ensures d.roomTypeDiff == if hasRoomTypes then Some(Map(RoomTypeDiff, rows)) else None
    ensures d.season == Map(SeasonOfArrival, rows)
    ensures d.stayDurationCategory == Map(StayDurationCategory, d.totalStayNights)
  {
    d := new DerivedFrame.Copy(rows);
    d.AddCounts();
    d.AddCategories();
    d.AddFlags(hasRoomTypes);
  }

  // ---------------------------------------------------------------------------
  // clean_data

  /** Which of the columns `clean_data` tests for exist. */
  datatype Schema = Schema(hasAdr: bool, hasChildren: bool, hasAdults: bool, hasStayColumns: bool)

  /** `(adr >= 0) & (adr < 5000)`: a missing adr fails both comparisons. */
  predicate AdrInRange(b: RawBooking) {
    b.adr.Some? && 0.0 <= b.adr.value < 5000.0
  }

  /** `children.fillna(0)` on one row. */
  function FillChildren(b: RawBooking): (r: RawBooking)
    ensures r.children.Some? && r.children.value == b.children.GetOr(0.0)
    ensures r == b.(children := Some(b.children.GetOr(0.0)))
  {
    b.(children := Some(b.children.GetOr(0.0)))
  }

  /** `(adults > 0) | (children > 0)`: a missing children count fails its comparison. */
  predicate HasGuests(b: RawBooking) {
    b.adults > 0 || (b.children.Some? && b.children.value > 0.0)
  }

  predicate HasNights(b: RawBooking) {
    b.weekendNights + b.weekNights > 0
  }


  /** The rows `clean_data` keeps, tested on the deduplicated row as one mask: adr in range, a
      positive guest count once children is filled, at least one night; each test only when its
      columns exist. */
  predicate Kept(s: Schema, b: RawBooking) {
    && (s.hasAdr ==> AdrInRange(b))
    && (s.hasAdults && s.hasChildren ==> HasGuests(FillChildren(b)))
    && (s.hasStayColumns ==> HasNights(b))
  }

  function KeptBy(s: Schema): RawBooking -> bool {
    (b: RawBooking) => Kept(s, b)
  }

  function Fill(s: Schema, b: RawBooking): RawBooking {
    if s.hasChildren then FillChildren(b) else b
  }

  function FillBy(s: Schema): RawBooking -> RawBooking {
    (b: RawBooking) => Fill(s, b)
  }

  /** The cleaned frame: the deduplicated rows that pass the mask, with children filled. */
  function Cleaned(s: Schema, rows: seq<RawBooking>): seq<RawBooking> {
    Map(FillBy(s), Filter(Distinct(rows), KeptBy(s)))
  }

  /** The successive reassignments of `df` after deduplication. */
  function Stages(s: Schema, xs: seq<RawBooking>): seq<RawBooking> {
    var a := if s.hasAdr then Filter(xs, AdrInRange) else xs;
    var b := if s.hasChildren then Map(FillChildren, a) else a;
    var c := if s.hasAdults && s.hasChildren then Filter(b, HasGuests) else b;
    if s.hasStayColumns then Filter(c, HasNights) else c
  }

  /** Filtering and filling step by step is selecting with the one mask, then filling. */
  lemma {:induction false} StagesAreOneMask(s: Schema, xs: seq<RawBooking>)
    ensures Stages(s, xs) == Map(FillBy(s), Filter(xs, KeptBy(s)))
  {
    if xs != [] {
      StagesAreOneMask(s, xs[1..]);
      var x, t := xs[0], xs[1..];
      assert xs == [x] + t;
      var a := if s.hasAdr then Filter(xs, AdrInRange) else xs;
      var at := if s.hasAdr then Filter(t, AdrInRange) else t;
      assert a == if s.hasAdr && !AdrInRange(x) then at else [x] + at;
      var b := if s.hasChildren then Map(FillChildren, a) else a;
      var bt := if s.hasChildren then Map(FillChildren, at) else at;
      assert b == if s.hasAdr && !AdrInRange(x) then bt else [Fill(s, x)] + bt;
      var c := if s.hasAdults && s.hasChildren then Filter(b, HasGuests) else b;
      var ct := if s.hasAdults && s.hasChildren then Filter(bt, HasGuests) else bt;
      assert c == if (s.hasAdr && !AdrInRange(x)) || (s.hasAdults && s.hasChildren && !HasGuests(FillChildren(x))) then ct else [Fill(s, x)] + ct;
      assert HasNights(Fill(s, x)) == HasNights(x);
    }
  }

  /** `clean_data(df)`: drop duplicate rows, drop rows with adr outside [0, 5000), fill missing
      children with 0, drop rows without guests, drop rows without nights; each step only when
      its columns exist. */
  method CleanData(rows: seq<RawBooking>, s: Schema) returns (df: seq<RawBooking>)
    ensures df == Cleaned(s, rows)
  {
    df := Distinct(rows);
    ghost var deduplicated := df;
    if s.hasAdr {
      df := Filter(df, AdrInRange);
    }
    if s.hasChildren {
      df := Map(FillChildren, df);
    }
    if s.hasAdults && s.hasChildren {
      df := Filter(df, HasGuests);
    }
    if s.hasStayColumns {
      df := Filter(df, HasNights);
    }
    assert df == Stages(s, deduplicated);
    StagesAreOneMask(s, deduplicated);
  }

  /** Every row of the cleaned frame passed its tests: adr in [0, 5000) (so never missing),
      children filled, guests and nights positive. */
  lemma CleanedRowsValid(s: Schema, rows: seq<RawBooking>)
    ensures forall b :: b in Cleaned(s, rows) && s.hasAdr ==> AdrInRange(b)
    ensures forall b :: b in Cleaned(s, rows) && s.hasChildren ==> b.children.Some?
    ensures forall b :: b in Cleaned(s, rows) && s.hasAdults && s.hasChildren ==> HasGuests(b)
    ensures forall b :: b in Cleaned(s, rows) && s.hasStayColumns ==> HasNights(b)
  {
    CleanedMembers(s, rows);
  }

  /** A row survives cleaning exactly when some row of the input passes the mask and fills to it. */
  lemma CleanedMembers(s: Schema, rows: seq<RawBooking>)
    ensures forall b :: b in Cleaned(s, rows) <==> exists k :: k in rows && Kept(s, k) && b == Fill(s, k)
  {
    MapMembers(FillBy(s), Filter(Distinct(rows), KeptBy(s)));
  }

  /** With the stay columns present, every cleaned row has at least one night and so a stay-duration
      category. */
  lemma CleanedRowsHaveStayCategory(s: Schema, rows: seq<RawBooking>)
    requires s.hasStayColumns
    ensures forall b :: b in Cleaned(s, rows) ==> StayDurationCategory(TotalStayNights(b)).Some?
  {
    CleanedRowsValid(s, rows);
    forall b | b in Cleaned(s, rows) ensures StayDurationCategory(TotalStayNights(b)).Some? {
      StayDurationSpec(TotalStayNights(b));
    }
  }

  lemma {:induction false} MapSubseq<A(!new), B(!new)>(f: A -> B, a: seq<A>, b: seq<A>)
    requires Subseq(a, b)
    ensures Subseq(Map(f, a), Map(f, b))
    decreases |b|
  {
    if a != [] && b != [] {
      if a[0] == b[0] {
        MapSubseq(f, a[1..], b[1..]);
      } else {
        MapSubseq(f, a, b[1..]);
        SubseqDropFront(Map(f, a), Map(f, b[1..]), f(b[0]));
        assert [f(b[0])] + Map(f, b[1..]) == Map(f, b);
      }
    }
  }

  /** The cleaned frame keeps the input's order: it is a subsequence of the input rows (with the
      children fill applied), and of the input itself when there is no children column. */
  lemma CleanedIsOrderedSelection(s: Schema, rows: seq<RawBooking>)
    ensures Subseq(Cleaned(s, rows), Map(FillBy(s), rows))
    ensures !s.hasChildren ==> Subseq(Cleaned(s, rows), rows)
  {
    var d := Distinct(rows);
    FilterIsSubseq(d, KeptBy(s));
    DistinctIsSubseq(rows);
    SubseqTransitive(Filter(d, KeptBy(s)), d, rows);
    MapSubseq(FillBy(s), Filter(d, KeptBy(s)), rows);
    if !s.hasChildren {
      MapIdentity(FillBy(s), Filter(d, KeptBy(s)));
    }
  }

  lemma {:induction false} MapIdentity<A>(f: A -> A, xs: seq<A>)
    requires forall x :: f(x) == x
    ensures Map(f, xs) == xs
  {
    if xs != [] {
      MapIdentity(f, xs[1..]);
    }
  }

  /** Deduplication runs before the fill, so a kept row with missing children and the same row
      with 0 children both survive and are equal afterwards: the result need not be free of
      duplicates. */
  lemma CleanedMayRepeatRows(s: Schema, r: RawBooking)
    requires s.hasChildren && r.children.None? && Kept(s, r)
    ensures Cleaned(s, [r, r.(children := Some(0.0))]) == [FillChildren(r), FillChildren(r)]
  {
    var r0 := r.(children := Some(0.0));
    assert FillChildren(r0) == FillChildren(r);
    assert Kept(s, r0);
    assert r != r0;
    var xs := [r, r0];
    assert Distinct(xs) == xs by {
      assert xs[..1] == [r];
      assert Distinct([r]) == [r] by { assert [r][..0] == []; }
    }
    assert Filter(xs, KeptBy(s)) == xs by {
      assert xs[1..] == [r0];
      assert [r0][1..] == [];
    }
    assert Map(FillBy(s), xs) == [FillChildren(r), FillChildren(r0)] by {
      assert xs[1..] == [r0];
      assert [r0][1..] == [];
    }
  }

  // ---------------------------------------------------------------------------
  // get_data_quality_report

  /** Number of missing cells in a column (`isnull().sum()`). */
  function MissingCount<T>(xs: seq<Option<T>>): (k: nat)
    ensures k <= |xs|
  {
    if xs == [] then 0 else (if xs[0].None? then 1 else 0) + MissingCount(xs[1..])
  }

  /** The missing cells and the present values together make up the column. */
  lemma {:induction false} MissingPlusPresent<T(!new)>(xs: seq<Option<T>>)
    ensures MissingCount(xs) + |Present(xs)| == |xs|
  {
    if xs != [] {
      MissingPlusPresent(xs[1..]);
    }
  }

  function ColumnMissing(c: Column): (k: nat)
    ensures k <= c.Length()
  {
    match c
    case Categorical(labels) => MissingCount(labels)
    case Numeric(values) => MissingCount(values)
  }

  /** `nunique()`: the number of distinct present values. */
  function ColumnUnique(c: Column): nat {
    match c
    case Categorical(labels) => |Distinct(Present(labels))|
    case Numeric(values) => |Distinct(Present(values))|
  }

  /** `k / len(df) * 100`; a frame without rows gives NaN. */
  function Percent(k: nat, n: nat): (p: Option<real>)
    ensures p.Some? <==> n > 0
  {
    if n == 0 then None else Some(k as real / n as real * 100.0)
  }

  /** The smallest value (`min()`). */
  function Minimum(xs: seq<real>): (m: real)
    requires xs != []
    ensures m in xs && forall x :: x in xs ==> m <= x
  {
    if |xs| == 1 then xs[0]
    else
      var rest := Minimum(xs[1..]);
      assert forall x :: x in xs ==> x == xs[0] || x in xs[1..];
      if xs[0] <= rest then xs[0] else rest
  }

  /** The largest value (`max()`). */
  function Maximum(xs: seq<real>): (m: real)
    requires xs != []
    ensures m in xs && forall x :: x in xs ==> x <= m
  {
    if |xs| == 1 then xs[0]
    else
      var rest := Maximum(xs[1..]);
      assert forall x :: x in xs ==> x == xs[0] || x in xs[1..];
      if xs[0] >= rest then xs[0] else rest
  }

  /** One row of the report. The five statistics stay NaN (`None`) for a non-numeric column. */
  datatype QualityRow = QualityRow(
    column: string,
    numeric: bool,
    nMissing: nat,
    pctMissing: Option<real>,
    nUnique: nat,
    pctUnique: Option<real>,
    mean: Option<real>,
    median: Option<real>,
    std: Option<real>,
    min: Option<real>,
    max: Option<real>)

  /** The report row as the frame constructor builds it, before any statistic is written. */
  function BaseRow(n: nat, c: NamedColumn): (r: QualityRow)
    ensures r.column == c.name && r.nMissing == ColumnMissing(c.column) && r.nUnique == ColumnUnique(c.column)
    ensures r.pctMissing == Percent(r.nMissing, n) && r.pctUnique == Percent(r.nUnique, n)
    ensures r.mean.None? && r.median.None? && r.std.None? && r.min.None? && r.max.None?
  {
    var missing, unique := ColumnMissing(c.column), ColumnUnique(c.column);
    QualityRow(c.name, c.column.Numeric?, missing, Percent(missing, n), unique, Percent(unique, n),
      None, None, None, None, None)
  }

  /** The statistics written for a numeric column over its present values: NaN for no values
      (and `std` for fewer than two). */
  function WithStats(r: QualityRow, values: seq<Option<real>>, lib: Stats.SciPy): (w: QualityRow)
    ensures w.column == r.column && w.nMissing == r.nMissing && w.pctMissing == r.pctMissing
    ensures w.nUnique == r.nUnique && w.pctUnique == r.pctUnique && w.numeric == r.numeric
    ensures var xs := Present(values);
      && w.mean == Mean(xs)
      && (w.min.Some? <==> xs != []) && (w.min.Some? ==> w.min.value in xs && forall x :: x in xs ==> w.min.value <= x)
      && (w.max.Some? <==> xs != []) && (w.max.Some? ==> w.max.value in xs && forall x :: x in xs ==> x <= w.max.value)
      && (w.std.Some? <==> |xs| >= 2)
      && (|xs| >= 2 ==> w.std == Some(Stats.SampleStd(xs, lib.sqrt)))
  {
    var xs := Present(values);
    if xs == [] then r.(mean := None, median := None, std := None, min := None, max := None)
    else
      r.(mean := Mean(xs), median := Some(lib.median(xs)),
        std := if |xs| >= 2 then Some(Stats.SampleStd(xs, lib.sqrt)) else None,
        min := Some(Minimum(xs)), max := Some(Maximum(xs)))
  }

  /** The finished row of one column. */
  function ReportRow(n: nat, lib: Stats.SciPy, c: NamedColumn): QualityRow {
    if c.column.Numeric? then WithStats(BaseRow(n, c), c.column.values, lib) else BaseRow(n, c)
  }

  /** The sort key: NaN percentages sort after every number. */
  function PctMissingKey(r: QualityRow): real {
    if r.pctMissing.Some? then r.pctMissing.value else -1.0
  }

  /** `get_data_quality_report(df)` for a frame of `n` rows: one base row per column, the
      statistics written into the row of each numeric column, then the rows sorted by
      decreasing percentage of missing values. */
  method GetDataQualityReport(columns: seq<NamedColumn>, n: nat, lib: Stats.SciPy) returns (report: seq<QualityRow>)
    requires forall j :: 0 <= j < |columns| ==> columns[j].column.Length() == n
    ensures multiset(report) == multiset(Map((c: NamedColumn) => ReportRow(n, lib, c), columns))
    ensures |report| == |columns|
    ensures NonIncreasing(report, PctMissingKey)
  {
    var rows := Map((c: NamedColumn) => BaseRow(n, c), columns);
    var i := 0;
    while i < |columns|
      invariant 0 <= i <= |columns| && |rows| == |columns|
      invariant forall j :: 0 <= j < i ==> rows[j] == ReportRow(n, lib, columns[j])
      invariant forall j :: i <= j < |columns| ==> rows[j] == BaseRow(n, columns[j])
    {
      if columns[i].column.Numeric? {
        rows := rows[i := WithStats(rows[i], columns[i].column.values, lib)];
      }
      i := i + 1;
    }
    assert rows == Map((c: NamedColumn) => ReportRow(n, lib, c), columns);
    report := SortByDesc(rows, PctMissingKey);
    assert |report| == |multiset(report)| == |rows|;
  }

  /** Every report row has at most n missing and at most n - missing distinct values; with rows
      present, both percentages lie in [0, 100]. */
  lemma ReportRowBounds(n: nat, lib: Stats.SciPy, c: NamedColumn)
    requires c.column.Length() == n
    ensures var r := ReportRow(n, lib, c);
      && r.column == c.name && r.numeric == c.column.Numeric?
      && r.nMissing <= n && r.nUnique <= n - r.nMissing
      && (n > 0 ==> 0.0 <= r.pctMissing.value <= 100.0 && 0.0 <= r.pctUnique.value <= 100.0)
      && (n == 0 ==> r.pctMissing.None?)
  {
    match c.column {
      case Categorical(labels) => MissingPlusPresent(labels);
      case Numeric(values) => MissingPlusPresent(values);
    }
    var r := ReportRow(n, lib, c);
    if n > 0 {
      PercentInRange(r.nMissing, n);
      PercentInRange(r.nUnique, n);
    }
  }

  lemma PercentInRange(k: nat, n: nat)
    requires 0 < n && k <= n
    ensures 0.0 <= Percent(k, n).value <= 100.0
  {
    Stats.RatioInUnitInterval(k as real, n as real);
  }
}
