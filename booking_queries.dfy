/**
 * The read side of BookingService: the filtered and paged booking list, the
 * occupancy rate of a day, the dashboard counts and revenue, and the hotels
 * with the most revenue over the last month.
 */
module BookingQueries {
  import opened Wrappers
  import opened Seqs
  import opened Text
  import opened Calendar
  import opened Rates
  import opened Models
  import opened Dto
  import opened Context

  // ---------------------------------------------------------------------
  // GetBookingsAsync

  /** The filters of the booking list; an absent or blank filter keeps every booking. */
  datatype BookingFilter = BookingFilter(hotelId: Option<int>, status: string, fromDate: Option<int>, toDate: Option<int>)
  {
    predicate Keeps(b: Booking)
    {
      && (hotelId.None? || b.hotelId == hotelId.value)
      && (IsBlank(status) || b.status == status)
      && (fromDate.None? || b.checkIn >= fromDate.value)
      && (toDate.None? || b.checkOut <= toDate.value)
    }
  }

  /** OrderByDescending(CreatedAt): a booking comes before any booking created no later. */
  predicate NewerFirst(a: Booking, b: Booking)
  {
    a.createdAt >= b.createdAt
  }

  /** The bookings the filter keeps, newest first. */
  function KeptNewestFirst(bookings: seq<Booking>, f: BookingFilter): (r: seq<Booking>)
    ensures SortedBy(r, NewerFirst)
    ensures multiset(r) == multiset(Filter(bookings, f.Keeps))
  {
    SortBy(Filter(bookings, f.Keeps), NewerFirst)
  }

  /** GetBookingsAsync: count the kept bookings, then order them newest first and cut out the page. */
  function GetBookings(bookings: seq<Booking>, page: int, pageSize: int, f: BookingFilter): PagedResult<Booking>
  {
    PagedResult(Page(KeptNewestFirst(bookings, f), page, pageSize), Count(bookings, f.Keeps), page, pageSize)
  }

  /**
   * TotalItems counts before paging: it is the number of bookings the
   * filters keep, each as often as it is stored, and zero exactly when the
   * filters keep no booking.
   */
  lemma GetBookingsTotal(bookings: seq<Booking>, page: int, pageSize: int, f: BookingFilter)
    ensures GetBookings(bookings, page, pageSize, f).totalItems == |KeptNewestFirst(bookings, f)|
    ensures GetBookings(bookings, page, pageSize, f).totalItems == |Filter(bookings, f.Keeps)|
    ensures GetBookings(bookings, page, pageSize, f).totalItems == 0 <==>
              forall b :: b in bookings ==> !f.Keeps(b)
  {
    var r := KeptNewestFirst(bookings, f);
    assert |r| == |multiset(r)| == |multiset(Filter(bookings, f.Keeps))|;
  }

  /** Every booking on a page is a booking the filters keep. */
  lemma GetBookingsKept(bookings: seq<Booking>, page: int, pageSize: int, f: BookingFilter)
    requires page >= 1 && pageSize >= 1
    ensures forall x :: x in GetBookings(bookings, page, pageSize, f).items ==> x in bookings && f.Keeps(x)
  {
    var sorted := KeptNewestFirst(bookings, f);
    PageMembers(sorted, page, pageSize);
    forall x | x in sorted ensures x in bookings && f.Keeps(x) {
      assert x in multiset(sorted);
    }
  }

  /**
   * A page holds at most pageSize bookings, newest first, and its i-th item
   * is the kept booking at position (page - 1) * pageSize + i.
   */
  lemma GetBookingsPage(bookings: seq<Booking>, page: int, pageSize: int, f: BookingFilter)
    requires page >= 1 && pageSize >= 1
    ensures |GetBookings(bookings, page, pageSize, f).items| <= pageSize
    ensures var items := GetBookings(bookings, page, pageSize, f).items;
            forall i, j :: 0 <= i < j < |items| ==> items[i].createdAt >= items[j].createdAt
    ensures var items := GetBookings(bookings, page, pageSize, f).items;
            forall i :: 0 <= i < |items| ==> items[i] == KeptNewestFirst(bookings, f)[Offset(page, pageSize) + i]
  {
    var sorted := KeptNewestFirst(bookings, f);
    PageContents(sorted, page, pageSize);
    PageOfSorted(sorted, page, pageSize, NewerFirst);
    var items := Page(sorted, page, pageSize);
    forall i, j | 0 <= i < j < |items| ensures items[i].createdAt >= items[j].createdAt {
      assert NewerFirst(items[i], items[j]);
    }
  }

  // ---------------------------------------------------------------------
  // CalculateOccupancyRateAsync

  /**
   * The rooms offered and reserved on one day, over every record dated that
   * day. Each record belongs to exactly one room type (the key and the
   * foreign key), so the records are visited through the room types.
   */
  function DayTotals(roomTypes: seq<RoomType>, l: Ledger, day: int): (r: (int, int))
  {
    if roomTypes == [] then (0, 0)
    else
      var rest := DayTotals(roomTypes[1..], l, day);
      var k := (roomTypes[0].id, day);
      if k in l then (rest.0 + l[k].totalRooms, rest.1 + l[k].reservedRooms) else rest
  }

  lemma {:induction false} DayTotalsSound(roomTypes: seq<RoomType>, l: Ledger, day: int)
    requires LedgerSound(l)
    ensures 0 <= DayTotals(roomTypes, l, day).1 <= DayTotals(roomTypes, l, day).0
  {
    if roomTypes != [] {
      DayTotalsSound(roomTypes[1..], l, day);
      var k := (roomTypes[0].id, day);
      if k in l {
        assert l[k].Sound();
      }
    }
  }

  /** reserved * 100 / total over the day's records, 0 when they offer no rooms. */
  function OccupancyRate(t: Tables, day: int): real
  {
    var (total, reserved) := DayTotals(t.roomTypes, t.inventory, day);
    Rate(reserved, total)
  }

  /** The rate of a day is reserved * 100 / total; on a sound ledger it is a percentage. */
  lemma OccupancyRateSpec(t: Tables, day: int)
    ensures LedgerSound(t.inventory) ==> 0.0 <= OccupancyRate(t, day) <= 100.0
    ensures var (total, reserved) := DayTotals(t.roomTypes, t.inventory, day);
            && (total == 0 ==> OccupancyRate(t, day) == 0.0)
            && (total > 0 ==> OccupancyRate(t, day) * total as real == reserved as real * 100.0)
  {
    if LedgerSound(t.inventory) {
      DayTotalsSound(t.roomTypes, t.inventory, day);
    }
  }

  // ---------------------------------------------------------------------
  // GetTopHotelsAsync

  /** The booking was made on or after `since` and is not cancelled: it counts for the top hotels. */
  predicate CountsSince(b: Booking, hotelId: int, since: int)
  {
    b.hotelId == hotelId && b.status != StatusCancelled && DateOf(b.createdAt) >= since
  }

  /** The TopHotelDto projection of one hotel. */
  function TopRow(h: Hotel, bookings: seq<Booking>, since: int): TopHotel
  {
    TopHotel(h.id, h.name, h.city, Count(bookings, b => CountsSince(b, h.id, since)),
             Sum(Filter(bookings, b => CountsSince(b, h.id, since)), (b: Booking) => b.totalAmount))
  }

  /** Where(h => h.IsActive). */
  predicate ActiveHotel(h: Hotel)
  {
    h.isActive
  }

  /** The projection of every active hotel, in table order. */
  function TopRows(hotels: seq<Hotel>, bookings: seq<Booking>, since: int): (r: seq<TopHotel>)
    ensures |r| == Count(hotels, ActiveHotel)
    ensures forall x :: x in r ==> exists h :: h in hotels && h.isActive && x == TopRow(h, bookings, since)
  {
    if hotels == [] then []
    else
      var rest := TopRows(hotels[1..], bookings, since);
      if hotels[0].isActive then [TopRow(hotels[0], bookings, since)] + rest else rest
  }

  /**
   * The i-th row is the projection of the i-th active hotel: each active
   * hotel has one row per stored occurrence, and no other hotel has one.
   */
  lemma {:induction false} TopRowsAt(hotels: seq<Hotel>, bookings: seq<Booking>, since: int)
    ensures var r := TopRows(hotels, bookings, since);
            && |r| == |Filter(hotels, ActiveHotel)|
            && forall i :: 0 <= i < |r| ==> r[i] == TopRow(Filter(hotels, ActiveHotel)[i], bookings, since)
  {
    if hotels != [] {
      var h := hotels[0];
      var act, act' := Filter(hotels, ActiveHotel), Filter(hotels[1..], ActiveHotel);
      var r, rest := TopRows(hotels, bookings, since), TopRows(hotels[1..], bookings, since);
      TopRowsAt(hotels[1..], bookings, since);
      SplitFirst(hotels, []);
      FilterCons(h, hotels[1..], ActiveHotel);
      if h.isActive {
        assert act == [h] + act' && r == [TopRow(h, bookings, since)] + rest;
        forall i | 0 <= i < |r| ensures r[i] == TopRow(act[i], bookings, since) {
          if i > 0 {
            assert r[i] == rest[i - 1] && act[i] == act'[i - 1];
          }
        }
      } else {
        assert act == act' && r == rest;
      }
    }
  }

  predicate MoreRevenue(a: TopHotel, b: TopHotel)
  {
    a.revenue >= b.revenue
  }

  /** OrderByDescending(Revenue).Take(count). */
  function Ranked(rows: seq<TopHotel>, count: int): seq<TopHotel>
  {
    Take(SortBy(rows, MoreRevenue), count)
  }

  /**
   * Ranking keeps min(count, |rows|) rows, by descending revenue, each one of
   * the given rows; no row left out has more revenue than a row kept.
   */
  lemma RankedSpec(rows: seq<TopHotel>, count: int)
    requires count >= 0
    ensures var r := Ranked(rows, count);
            && |r| == Min(count, |rows|)
            && (forall i, j :: 0 <= i < j < |r| ==> r[i].revenue >= r[j].revenue)
            && (forall i :: 0 <= i < |r| ==> r[i] in rows)
            && multiset(r) <= multiset(rows)
            && (forall x, i :: x in rows && x !in r && 0 <= i < |r| ==> x.revenue <= r[i].revenue)
  {
    var sorted := SortBy(rows, MoreRevenue);
    var r := Take(sorted, count);
    TakeSubMultiset(sorted, count);
    forall i, j | 0 <= i < j < |r| ensures r[i].revenue >= r[j].revenue {
      assert MoreRevenue(sorted[i], sorted[j]);
    }
    forall i | 0 <= i < |r| ensures r[i] in rows {
      assert r[i] in multiset(sorted);
    }
    forall x, i | x in rows && x !in r && 0 <= i < |r|
      ensures x.revenue <= r[i].revenue
    {
      assert x in multiset(sorted);
      var j :| 0 <= j < |sorted| && sorted[j] == x;
      assert MoreRevenue(sorted[i], sorted[j]);
    }
  }

  /**
   * GetTopHotelsAsync(count) at instant now: the active hotels by descending
   * revenue of their bookings made since the same day a month before, at
   * most count of them. AddMonths(-1) fails before 0001-02-01.
   */
  function TopHotels(t: Tables, now: int, count: int): Result<seq<TopHotel>, Error>
  {
    var today := DateOf(now);
    if !IsDay(today) then Err(DateOutOfRange(today))
    else match MonthBefore(today)
      case None => Err(DateOutOfRange(today))
      case Some(since) => Ok(Ranked(TopRows(t.hotels, t.bookings, since), count))
  }

  /**
   * The top hotels are available from 0001-02-01 on: at most count rows (all
   * active hotels when fewer), each an active hotel's projection, by
   * descending revenue; no active hotel left out has more revenue than a
   * hotel shown.
   */
  lemma TopHotelsSpec(t: Tables, now: int, count: int)
    requires IsDateTime(now) && count >= 0
    ensures TopHotels(t, now, count).Ok? <==> DateOf(now) >= 31
    ensures TopHotels(t, now, count).Ok? ==>
              var r := TopHotels(t, now, count).value;
              var rows := TopRows(t.hotels, t.bookings, MonthBefore(DateOf(now)).value);
              && |r| == Min(count, Count(t.hotels, ActiveHotel))
              && (forall i, j :: 0 <= i < j < |r| ==> r[i].revenue >= r[j].revenue)
              && (forall i :: 0 <= i < |r| ==> r[i] in rows)
              && multiset(r) <= multiset(rows)
              && (forall x, i :: x in rows && x !in r && 0 <= i < |r| ==> x.revenue <= r[i].revenue)
  {
    MonthBeforeDistance(DateOf(now));
    if TopHotels(t, now, count).Ok? {
      RankedSpec(TopRows(t.hotels, t.bookings, MonthBefore(DateOf(now)).value), count);
    }
  }

  // ---------------------------------------------------------------------
  // GetDashboardStatsAsync

  /** Confirmed, and today lies within [check-in, check-out]. */
  predicate ActiveOn(b: Booking, today: int)
  {
    b.status == StatusConfirmed && b.checkIn <= today && b.checkOut >= today
  }

  /** Made on that day. */
  predicate MadeOn(b: Booking, day: int)
  {
    DateOf(b.createdAt) == day
  }

  /** Made on that day and not cancelled: its total counts as that day's revenue. */
  predicate EarnsOn(b: Booking, day: int)
  {
    MadeOn(b, day) && b.status != StatusCancelled
  }

  /** The filters of the dashboard's three booking queries, for a given day. */
  function ActiveAt(today: int): Booking -> bool { b => ActiveOn(b, today) }

  function MadeAt(day: int): Booking -> bool { b => MadeOn(b, day) }

  function EarningAt(day: int): Booking -> bool { b => EarnsOn(b, day) }

  /** The amount a booking contributes to revenue. */
  function Amount(b: Booking): int { b.totalAmount }

  /**
   * A day's revenue booking by booking: each booking adds its total when it
   * earns on that day and nothing otherwise.
   */
  function RevenueOn(bs: seq<Booking>, day: int): int
  {
    if bs == [] then 0
    else (if EarnsOn(bs[0], day) then bs[0].totalAmount else 0) + RevenueOn(bs[1..], day)
  }

  /** Where-then-Sum over the earning bookings is the booking-by-booking revenue. */
  lemma {:induction false} EarningSumIsRevenue(bs: seq<Booking>, day: int)
    ensures Sum(Filter(bs, EarningAt(day)), Amount) == RevenueOn(bs, day)
  {
    if bs != [] {
      EarningSumIsRevenue(bs[1..], day);
      SplitFirst(bs, []);
      FilterCons(bs[0], bs[1..], EarningAt(day));
      if EarnsOn(bs[0], day) {
        SumCons(bs[0], Filter(bs[1..], EarningAt(day)), Amount);
      }
    }
  }

  /** GetDashboardStatsAsync at instant now; it fails where the top hotels do. */
  function Dashboard(t: Tables, now: int): Result<DashboardStats, Error>
  {
    var today := DateOf(now);
    match TopHotels(t, now, 5)
    case Err(e) => Err(e)
    case Ok(top) =>
      Ok(DashboardStats(
        Count(t.hotels, ActiveHotel),
        Count(t.bookings, ActiveAt(today)),
        Count(t.bookings, MadeAt(today)),
        Sum(Filter(t.bookings, EarningAt(today)), Amount),
        OccupancyRate(t, today),
        top))
  }

  /**
   * The dashboard: it is available from 0001-02-01 on; it counts the active
   * hotels, the confirmed bookings whose stay includes today and today's
   * bookings; today's revenue is the sum, booking by booking, of the totals
   * of today's bookings that are not cancelled, so, when no total is
   * negative, it is non-negative and at least each of them; the rate is the
   * occupancy of today, a percentage when the ledger is sound; the top
   * hotels are the top five of the month.
   */
  lemma DashboardSpec(t: Tables, now: int)
    requires IsDateTime(now)
    ensures Dashboard(t, now).Ok? <==> DateOf(now) >= 31
    ensures Dashboard(t, now).Ok? ==>
              var s := Dashboard(t, now).value;
              var today := DateOf(now);
              && s.totalHotels == |Filter(t.hotels, ActiveHotel)|
              && s.activeBookings == |Filter(t.bookings, ActiveAt(today))|
              && (s.activeBookings == 0 <==> forall b :: b in t.bookings ==> !ActiveOn(b, today))
              && s.bookingsToday == |Filter(t.bookings, MadeAt(today))|
              && (s.bookingsToday == 0 <==> forall b :: b in t.bookings ==> !MadeOn(b, today))
              && s.revenueToday == RevenueOn(t.bookings, today)
              && ((forall i :: 0 <= i < |t.bookings| ==> t.bookings[i].totalAmount >= 0) ==>
                    && s.revenueToday >= 0
                    && (forall b :: b in t.bookings && EarnsOn(b, today) ==> s.revenueToday >= b.totalAmount))
              && s.occupancyRate == OccupancyRate(t, today)
              && (LedgerSound(t.inventory) ==> 0.0 <= s.occupancyRate <= 100.0)
              && s.topHotels == TopHotels(t, now, 5).value
              && |s.topHotels| <= 5
  {
    TopHotelsSpec(t, now, 5);
    var today := DateOf(now);
    OccupancyRateSpec(t, today);
    RevenueToday(t.bookings, today);
  }

  /**
   * Today's revenue is the booking-by-booking revenue; when no total is
   * negative it is non-negative and at least each total it adds.
   */
  lemma RevenueToday(bs: seq<Booking>, today: int)
    ensures var revenue := Sum(Filter(bs, EarningAt(today)), Amount);
            && revenue == RevenueOn(bs, today)
            && ((forall i :: 0 <= i < |bs| ==> bs[i].totalAmount >= 0) ==>
                  && revenue >= 0
                  && forall b :: b in bs && EarnsOn(b, today) ==> revenue >= b.totalAmount)
  {
    var earning := Filter(bs, EarningAt(today));
    EarningSumIsRevenue(bs, today);
    if forall i :: 0 <= i < |bs| ==> bs[i].totalAmount >= 0 {
      SumNonNegative(earning, Amount);
      forall b | b in bs && EarnsOn(b, today)
        ensures Sum(earning, Amount) >= b.totalAmount
      {
        SumAtLeastMember(earning, b);
      }
    }
  }

  /** A sum of non-negative totals is at least each of them. */
  lemma {:induction false} SumAtLeastMember(bs: seq<Booking>, b: Booking)
    requires forall x :: x in bs ==> x.totalAmount >= 0
    requires b in bs
    ensures Sum(bs, Amount) >= b.totalAmount
  {
    SumNonNegative(bs[1..], Amount);
    if bs[0] != b {
      SumAtLeastMember(bs[1..], b);
    }
  }
}
