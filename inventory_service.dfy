/**
 * InventoryService: editing one ledger record, upserting one room type's
 * records over a closed range of dates, and the inventory reads (a room
 * type's records over a date range, a hotel's records on one date, and a
 * hotel's daily occupancy keyed by "yyyy-MM-dd").
 *
 * Each write works on a copy of the ledger and commits it once, at
 * SaveChangesAsync, so a failure leaves the stored tables as they were.
 */
module InventoryServices {
  import opened Wrappers
  import opened Seqs
  import opened Text
  import opened Calendar
  import opened Rates
  import opened Models
  import opened Dto
  import opened Context
  import opened BookingQueries

  /** The name of the room type a record belongs to (what Include(RoomType) loads); empty when none is stored. */
  function RoomTypeName(roomTypes: seq<RoomType>, id: int): string
  {
    match FindRoomType(roomTypes, id)
    case None => ""
    case Some(rt) => rt.name
  }

  // ---------------------------------------------------------------------
  // UpdateInventoryAsync

  /** A record with the input's TotalRooms, Price and IsAvailable; its ReservedRooms is kept. */
  function Edited(r: InventoryRecord, input: UpdateInventoryInput): (e: InventoryRecord)
    ensures e.reservedRooms == r.reservedRooms
    ensures e.totalRooms == input.totalRooms && e.price == input.price && e.isAvailable == input.isAvailable
  {
    r.(totalRooms := input.totalRooms, price := input.price, isAvailable := input.isAvailable)
  }

  /**
   * UpdateInventoryAsync on the record stored under key k: an unknown key
   * and a TotalRooms below the rooms already reserved are refused; otherwise
   * only that record changes, and it keeps its ReservedRooms, so a sound
   * ledger stays sound.
   */
  function UpdateInventorySpec(l: Ledger, k: Key, input: UpdateInventoryInput): (r: Result<Ledger, Error>)
    ensures k !in l ==> r == Err(InventoryNotFound(k))
    ensures k in l && input.totalRooms < l[k].reservedRooms ==> r == Err(TotalBelowReserved(k))
    ensures r.Ok? <==> k in l && input.totalRooms >= l[k].reservedRooms
    ensures r.Ok? ==>
              && r.value.Keys == l.Keys
              && r.value[k].reservedRooms == l[k].reservedRooms
              && r.value[k].totalRooms == input.totalRooms
              && r.value[k].price == input.price
              && r.value[k].isAvailable == input.isAvailable
              && (forall k' :: k' in l && k' != k ==> r.value[k'] == l[k'])
    ensures r.Ok? && LedgerSound(l) ==> LedgerSound(r.value)
  {
    if k !in l then Err(InventoryNotFound(k))
    else if input.totalRooms < l[k].reservedRooms then Err(TotalBelowReserved(k))
    else Ok(l[k := Edited(l[k], input)])
  }

  /** An accepted edit keeps the whole database valid: no key appears or vanishes and no reservation moves. */
  lemma UpdateInventoryPreservesValid(t: Tables, k: Key, input: UpdateInventoryInput)
    requires ValidTables(t)
    requires UpdateInventorySpec(t.inventory, k, input).Ok?
    ensures ValidTables(t.(inventory := UpdateInventorySpec(t.inventory, k, input).value))
  {
    var l1 := UpdateInventorySpec(t.inventory, k, input).value;
    forall k' | k' in l1 ensures l1[k'].reservedRooms == t.inventory[k'].reservedRooms {
    }
  }

  // ---------------------------------------------------------------------
  // BulkUpdateInventoryAsync

  /** What the loop leaves on key k: the existing record edited, or a new one with no rooms reserved. */
  function Upserted(l: Ledger, k: Key, input: UpdateInventoryInput): (r: InventoryRecord)
    ensures r.reservedRooms == (if k in l then l[k].reservedRooms else 0)
    ensures r.totalRooms == input.totalRooms && r.price == input.price && r.isAvailable == input.isAvailable
  {
    if k in l then Edited(l[k], input) else InventoryRecord(input.totalRooms, 0, input.price, input.isAvailable)
  }

  /**
   * The date loop from date d on, over the working copy l: an existing
   * record whose ReservedRooms exceeds the new TotalRooms stops it, and
   * AddDays(1) past 9999-12-31 throws. A date's record, when there is one,
   * is still the one loaded before the loop, since each date is visited once.
   */
  function BulkFrom(l: Ledger, u: BulkInventoryUpdate, d: int): Result<Ledger, Error>
    decreases u.endDate - d
  {
    if d > u.endDate then Ok(l)
    else
      var k := (u.roomTypeId, d);
      if k in l && u.data.totalRooms < l[k].reservedRooms then Err(TotalBelowReserved(k))
      else
        match AddDays(d, 1)
        case None => Err(DateOutOfRange(d))
        case Some(next) => BulkFrom(l[k := Upserted(l, k, u.data)], u, next)
  }

  /** BulkUpdateInventoryAsync: the room type must exist; then the date loop, committed once. */
  function BulkUpdateSpec(t: Tables, u: BulkInventoryUpdate): Result<Ledger, Error>
  {
    if FindRoomType(t.roomTypes, u.roomTypeId).None? then Err(RoomTypeNotFound(u.roomTypeId))
    else BulkFrom(t.inventory, u, u.startDate)
  }

  /** Key k is a date of the range [lo, hi] of room type u.roomTypeId. */
  predicate InBulkRange(u: BulkInventoryUpdate, lo: int, k: Key)
  {
    k.0 == u.roomTypeId && lo <= k.1 <= u.endDate
  }

  /** An existing record in [lo, hi] with more rooms reserved than the new TotalRooms. */
  ghost predicate Blocked(l: Ledger, u: BulkInventoryUpdate, lo: int)
  {
    exists k :: k in l && InBulkRange(u, lo, k) && u.data.totalRooms < l[k].reservedRooms
  }

  /** The loop reaches 9999-12-31, whose AddDays(1) throws. */
  predicate Overflows(u: BulkInventoryUpdate, lo: int)
  {
    lo <= u.endDate && u.endDate >= MaxDay
  }

  /** The ledger the bulk update promises from date lo on: the range upserted, the rest as it was. */
  ghost function BulkApplied(l: Ledger, u: BulkInventoryUpdate, lo: int): Ledger
  {
    map k | k in l.Keys + (set day | lo <= day <= u.endDate :: (u.roomTypeId, day)) ::
      if InBulkRange(u, lo, k) then Upserted(l, k, u.data) else l[k]
  }

  lemma {:induction false} BulkFromSpec(l: Ledger, u: BulkInventoryUpdate, d: int)
    requires 0 <= d <= MaxDay && u.endDate <= MaxDay
    ensures BulkOutcome(l, u, d, BulkFrom(l, u, d))
    decreases u.endDate - d
  {
    var k := (u.roomTypeId, d);
    if d > u.endDate {
      AppliedNone(l, u, d);
    } else if k in l && u.data.totalRooms < l[k].reservedRooms {
      assert Blocked(l, u, d);
    } else if d == MaxDay {
      assert Overflows(u, d);
      assert !Blocked(l, u, d) by {
        forall k' | k' in l && InBulkRange(u, d, k') ensures u.data.totalRooms >= l[k'].reservedRooms {
          assert k' == k;
        }
      }
    } else {
      var l1 := l[k := Upserted(l, k, u.data)];
      BulkFromSpec(l1, u, d + 1);
      BulkStep(l, u, d);
    }
  }

  /**
   * What the date loop from d on promises: it succeeds exactly when no
   * record in range blocks it and it does not run past 9999-12-31, it then
   * upserts the range, and it fails only on the last date or on a record
   * of the range with more rooms reserved than the new TotalRooms.
   */
  ghost predicate BulkOutcome(l: Ledger, u: BulkInventoryUpdate, d: int, r: Result<Ledger, Error>)
  {
    && (r.Ok? <==> !Blocked(l, u, d) && !Overflows(u, d))
    && (r.Ok? ==> r.value == BulkApplied(l, u, d))
    && (r.Err? ==>
          || r.error == DateOutOfRange(MaxDay)
          || (r.error.TotalBelowReserved? && r.error.key in l && InBulkRange(u, d, r.error.key)
              && u.data.totalRooms < l[r.error.key].reservedRooms))
  }

  /** One date of the loop: the promise from d + 1 on, over the upserted ledger, gives the promise from d on. */
  lemma BulkStep(l: Ledger, u: BulkInventoryUpdate, d: int)
    requires 0 <= d < MaxDay && d <= u.endDate
    requires !((u.roomTypeId, d) in l && u.data.totalRooms < l[(u.roomTypeId, d)].reservedRooms)
    requires var k := (u.roomTypeId, d);
             var l1 := l[k := Upserted(l, k, u.data)];
             BulkOutcome(l1, u, d + 1, BulkFrom(l1, u, d + 1))
    ensures BulkOutcome(l, u, d, BulkFrom(l, u, d))
  {
    var k := (u.roomTypeId, d);
    var l1 := l[k := Upserted(l, k, u.data)];
    assert BulkFrom(l, u, d) == BulkFrom(l1, u, d + 1);
    BlockedStep(l, u, d);
    AppliedStep(l, u, d);
    var r := BulkFrom(l1, u, d + 1);
    if r.Err? && r.error.TotalBelowReserved? && r.error.key in l1
       && InBulkRange(u, d + 1, r.error.key) && u.data.totalRooms < l1[r.error.key].reservedRooms {
      assert r.error.key != k;
    }
  }

  /** An empty range upserts nothing. */
  lemma AppliedNone(l: Ledger, u: BulkInventoryUpdate, d: int)
    requires d > u.endDate
    ensures BulkApplied(l, u, d) == l
  {
    assert (set day | d <= day <= u.endDate :: (u.roomTypeId, day)) == {};
  }

  /** Upserting date d leaves the later dates' blocking records as they were. */
  lemma BlockedStep(l: Ledger, u: BulkInventoryUpdate, d: int)
    requires d <= u.endDate
    requires !((u.roomTypeId, d) in l && u.data.totalRooms < l[(u.roomTypeId, d)].reservedRooms)
    ensures Blocked(l[(u.roomTypeId, d) := Upserted(l, (u.roomTypeId, d), u.data)], u, d + 1) <==> Blocked(l, u, d)
  {
    var k := (u.roomTypeId, d);
    var l1 := l[k := Upserted(l, k, u.data)];
    if Blocked(l, u, d) {
      var k' :| k' in l && InBulkRange(u, d, k') && u.data.totalRooms < l[k'].reservedRooms;
      assert k' != k && k' in l1 && l1[k'] == l[k'];
    }
    if Blocked(l1, u, d + 1) {
      var k' :| k' in l1 && InBulkRange(u, d + 1, k') && u.data.totalRooms < l1[k'].reservedRooms;
      assert k' != k && k' in l;
    }
  }

  /** Upserting date d and then the dates after it is upserting the dates from d on. */
  lemma AppliedStep(l: Ledger, u: BulkInventoryUpdate, d: int)
    requires d <= u.endDate
    ensures BulkApplied(l[(u.roomTypeId, d) := Upserted(l, (u.roomTypeId, d), u.data)], u, d + 1) == BulkApplied(l, u, d)
  {
    var k := (u.roomTypeId, d);
    var l1 := l[k := Upserted(l, k, u.data)];
    var a1 := BulkApplied(l1, u, d + 1);
    var a := BulkApplied(l, u, d);
    assert a1.Keys == a.Keys by {
      forall k' ensures k' in a1 <==> k' in a {
        if InBulkRange(u, d, k') {
          assert k' in (set day | d <= day <= u.endDate :: (u.roomTypeId, day));
        }
        if k' in (set day | d + 1 <= day <= u.endDate :: (u.roomTypeId, day)) {
          assert InBulkRange(u, d, k');
        }
      }
    }
    forall k' | k' in a ensures a1[k'] == a[k'] {
      if k' != k && InBulkRange(u, d, k') {
        assert InBulkRange(u, d + 1, k');
      }
    }
  }

  /**
   * BulkUpdateInventoryAsync: an unknown room type is refused; otherwise it
   * succeeds exactly when no existing record of the range holds more rooms
   * than the new TotalRooms (and the range stops short of 9999-12-31). On
   * success every date of [StartDate, EndDate] has exactly one record with
   * the new values, existing ones keeping their ReservedRooms and new ones
   * starting at 0, and every other record is as it was; an empty range
   * changes nothing.
   */
  lemma BulkUpdateEffect(t: Tables, u: BulkInventoryUpdate)
    requires IsDay(u.startDate) && IsDay(u.endDate)
    ensures var r := BulkUpdateSpec(t, u);
            && (FindRoomType(t.roomTypes, u.roomTypeId).None? ==> r == Err(RoomTypeNotFound(u.roomTypeId)))
            && (r.Ok? <==> FindRoomType(t.roomTypes, u.roomTypeId).Some? && !Blocked(t.inventory, u, u.startDate)
                           && !Overflows(u, u.startDate))
            && (u.startDate > u.endDate && FindRoomType(t.roomTypes, u.roomTypeId).Some? ==> r == Ok(t.inventory))
    ensures var r := BulkUpdateSpec(t, u);
            var l := t.inventory;
            r.Ok? ==>
              && (forall k :: k in r.value <==> k in l || InBulkRange(u, u.startDate, k))
              && (forall k :: k in r.value && InBulkRange(u, u.startDate, k) ==>
                    && r.value[k].totalRooms == u.data.totalRooms
                    && r.value[k].price == u.data.price
                    && r.value[k].isAvailable == u.data.isAvailable
                    && r.value[k].reservedRooms == (if k in l then l[k].reservedRooms else 0))
              && (forall k :: k in l && !InBulkRange(u, u.startDate, k) ==> r.value[k] == l[k])
  {
    BulkFromSpec(t.inventory, u, u.startDate);
    var r := BulkUpdateSpec(t, u);
    if r.Ok? {
      var rs := set day | u.startDate <= day <= u.endDate :: (u.roomTypeId, day);
      forall k ensures k in r.value <==> k in t.inventory || InBulkRange(u, u.startDate, k) {
        if InBulkRange(u, u.startDate, k) {
          assert k in rs;
        }
      }
    }
  }

  /**
   * An accepted bulk update of valid inputs ([Range(0, 1000)] TotalRooms)
   * keeps the database valid: every record it writes has no more rooms
   * reserved than offered, and no reservation moves.
   */
  lemma BulkUpdatePreservesValid(t: Tables, u: BulkInventoryUpdate)
    requires ValidTables(t)
    requires IsDay(u.startDate) && IsDay(u.endDate) && u.data.Valid()
    requires BulkUpdateSpec(t, u).Ok?
    ensures ValidTables(t.(inventory := BulkUpdateSpec(t, u).value))
  {
    BulkUpdateEffect(t, u);
    var l := t.inventory;
    var l1 := BulkUpdateSpec(t, u).value;
    assert FindRoomType(t.roomTypes, u.roomTypeId).Some?;
    forall k | k in l1 ensures FindRoomType(t.roomTypes, k.0).Some? && IsDay(k.1) && l1[k].Sound() {
      if InBulkRange(u, u.startDate, k) {
        if k in l {
          assert !(u.data.totalRooms < l[k].reservedRooms);
          assert l[k].Sound();
        }
      } else {
        assert l[k].Sound();
      }
    }
    assert Accounted(l1, t.bookings) by {
      forall k | Held(t.bookings, k) > 0 ensures k in l1 && Held(t.bookings, k) <= l1[k].reservedRooms {
        assert k in l;
        if InBulkRange(u, u.startDate, k) {
          assert l1[k].reservedRooms == l[k].reservedRooms;
        }
      }
    }
  }

  // ---------------------------------------------------------------------
  // GetInventoryAsync

  /**
   * The room type's records dated d .. hi, by ascending date: one view per
   * stored record of the range and nothing else.
   */
  function RecordsFrom(l: Ledger, name: string, rt: int, d: int, hi: int): (r: seq<InventoryView>)
    ensures forall i :: 0 <= i < |r| ==>
              && r[i].roomTypeId == rt && d <= r[i].date <= hi && (rt, r[i].date) in l
              && r[i] == ViewOf((rt, r[i].date), name, l[(rt, r[i].date)])
    ensures forall i, j :: 0 <= i < j < |r| ==> r[i].date < r[j].date
    ensures forall day :: d <= day <= hi && (rt, day) in l ==> ViewOf((rt, day), name, l[(rt, day)]) in r
    decreases hi - d
  {
    if d > hi then []
    else if (rt, d) in l then [ViewOf((rt, d), name, l[(rt, d)])] + RecordsFrom(l, name, rt, d + 1, hi)
    else RecordsFrom(l, name, rt, d + 1, hi)
  }

  /** GetInventoryAsync(roomTypeId, startDate, endDate): Where on room type and date range, OrderBy(Date). */
  function GetInventory(t: Tables, roomTypeId: int, startDate: int, endDate: int): seq<InventoryView>
  {
    RecordsFrom(t.inventory, RoomTypeName(t.roomTypes, roomTypeId), roomTypeId, startDate, endDate)
  }

  // ---------------------------------------------------------------------
  // GetHotelInventoryAsync

  /** The views of the records dated date of the given room types that belong to the hotel. */
  function HotelDayViews(roomTypes: seq<RoomType>, l: Ledger, hotelId: int, date: int): (r: seq<InventoryView>)
    ensures forall v :: v in r <==>
              exists i :: 0 <= i < |roomTypes| && roomTypes[i].hotelId == hotelId && (roomTypes[i].id, date) in l
                          && v == ViewOf((roomTypes[i].id, date), roomTypes[i].name, l[(roomTypes[i].id, date)])
  {
    if roomTypes == [] then []
    else
      var rest := HotelDayViews(roomTypes[1..], l, hotelId, date);
      var rt := roomTypes[0];
      assert forall i :: 1 <= i < |roomTypes| ==> roomTypes[i] == roomTypes[1..][i - 1];
      if rt.hotelId == hotelId && (rt.id, date) in l then [ViewOf((rt.id, date), rt.name, l[(rt.id, date)])] + rest
      else rest
  }

  /** Under unique room-type Ids no record is viewed twice: each view carries its own room type's Id. */
  lemma {:induction false} HotelDayViewsDistinct(roomTypes: seq<RoomType>, l: Ledger, hotelId: int, date: int)
    requires UniqueRoomTypeIds(roomTypes)
    ensures NoDuplicates(HotelDayViews(roomTypes, l, hotelId, date))
  {
    if roomTypes != [] {
      var rts := roomTypes[1..];
      var rest := HotelDayViews(rts, l, hotelId, date);
      var rt := roomTypes[0];
      assert UniqueRoomTypeIds(rts) by {
        forall i, j | 0 <= i < j < |rts| ensures rts[i].id != rts[j].id {
          assert rts[i] == roomTypes[i + 1] && rts[j] == roomTypes[j + 1];
        }
      }
      HotelDayViewsDistinct(rts, l, hotelId, date);
      if rt.hotelId == hotelId && (rt.id, date) in l {
        var v := ViewOf((rt.id, date), rt.name, l[(rt.id, date)]);
        forall w | w in rest ensures w.roomTypeId != rt.id {
          var i :| 0 <= i < |rts| && rts[i].hotelId == hotelId && (rts[i].id, date) in l
                   && w == ViewOf((rts[i].id, date), rts[i].name, l[(rts[i].id, date)]);
          assert rts[i] == roomTypes[i + 1];
        }
        var r := [v] + rest;
        forall i, j | 0 <= i < j < |r| ensures r[i] != r[j] {
          if i == 0 {
            assert r[j] == rest[j - 1];
          } else {
            assert r[i] == rest[i - 1] && r[j] == rest[j - 1];
          }
        }
      }
    }
  }

  /** A reordering of the hotel's views of a date keeps each record once. */
  lemma ReorderedViewsDistinct(t: Tables, hotelId: int, date: int, r: seq<InventoryView>)
    requires multiset(r) == multiset(HotelDayViews(t.roomTypes, t.inventory, hotelId, date))
    ensures UniqueRoomTypeIds(t.roomTypes) ==> NoDuplicates(r)
  {
    if UniqueRoomTypeIds(t.roomTypes) {
      HotelDayViewsDistinct(t.roomTypes, t.inventory, hotelId, date);
      PermutationKeepsNoDuplicates(HotelDayViews(t.roomTypes, t.inventory, hotelId, date), r);
    }
  }

  /** OrderBy(RoomType.Name), by ordinal comparison of the names. */
  predicate ByRoomTypeName(a: InventoryView, b: InventoryView)
  {
    LexLe(a.roomTypeName, b.roomTypeName)
  }

  lemma ByRoomTypeNameOrders()
    ensures TotalPreorder(ByRoomTypeName)
  {
    forall a, b ensures ByRoomTypeName(a, b) || ByRoomTypeName(b, a) {
      LexLeTotal(a.roomTypeName, b.roomTypeName);
    }
    forall a, b, c | ByRoomTypeName(a, b) && ByRoomTypeName(b, c) ensures ByRoomTypeName(a, c) {
      LexLeTransitive(a.roomTypeName, b.roomTypeName, c.roomTypeName);
    }
  }

  /**
   * GetHotelInventoryAsync(hotelId, date): exactly the records dated date
   * whose room type belongs to the hotel, ordered by room type name.
   */
  function GetHotelInventory(t: Tables, hotelId: int, date: int): (r: seq<InventoryView>)
    ensures forall i, j :: 0 <= i < j < |r| ==> LexLe(r[i].roomTypeName, r[j].roomTypeName)
    ensures forall v :: v in r <==>
              exists i :: 0 <= i < |t.roomTypes| && t.roomTypes[i].hotelId == hotelId && (t.roomTypes[i].id, date) in t.inventory
                          && v == ViewOf((t.roomTypes[i].id, date), t.roomTypes[i].name, t.inventory[(t.roomTypes[i].id, date)])
    ensures UniqueRoomTypeIds(t.roomTypes) ==> NoDuplicates(r)
  {
    ByRoomTypeNameOrders();
    var views := HotelDayViews(t.roomTypes, t.inventory, hotelId, date);
    var r := SortBy(views, ByRoomTypeName);
    SameMembers(views, r);
    assert forall i, j :: 0 <= i < j < |r| ==> ByRoomTypeName(r[i], r[j]);
    ReorderedViewsDistinct(t, hotelId, date, r);
    r
  }

  // ---------------------------------------------------------------------
  // GetOccupancyStatsAsync

  /** The room types of the hotel (the records' RoomType.HotelId filter). */
  function HotelRoomTypes(roomTypes: seq<RoomType>, hotelId: int): (r: seq<RoomType>)
    ensures forall x :: x in r <==> x in roomTypes && x.hotelId == hotelId
  {
    Filter(roomTypes, (rt: RoomType) => rt.hotelId == hotelId)
  }

  /** Some room type of the list has a record on day d: day d forms a group. */
  function HasRecordOn(roomTypes: seq<RoomType>, l: Ledger, d: int): (b: bool)
    ensures b <==> exists i :: 0 <= i < |roomTypes| && (roomTypes[i].id, d) in l
  {
    if roomTypes == [] then false
    else
      assert forall i :: 1 <= i < |roomTypes| ==> roomTypes[i] == roomTypes[1..][i - 1];
      (roomTypes[0].id, d) in l || HasRecordOn(roomTypes[1..], l, d)
  }

  /** The rounded occupancy of one day's group: the sums of its records' ReservedRooms over TotalRooms. */
  function DayOccupancy(roomTypes: seq<RoomType>, l: Ledger, d: int): real
  {
    var totals := DayTotals(roomTypes, l, d);
    Round2(Rate(totals.1, totals.0))
  }

  /**
   * ToDictionary over the groups of the days lo .. hi: the days that form a
   * group, each under its key with its value. The keys of different days
   * must differ, as ToDictionary throws on a repeated key.
   */
  function DayDictionary<K>(lo: int, hi: int, grouped: int -> bool, key: int -> K, value: int -> real): (m: map<K, real>)
    requires forall a, b :: lo <= a <= hi && lo <= b <= hi && key(a) == key(b) ==> a == b
    ensures forall s :: s in m ==> exists d :: lo <= d <= hi && grouped(d) && s == key(d)
    ensures forall d :: lo <= d <= hi ==> (key(d) in m <==> grouped(d))
    ensures forall d :: lo <= d <= hi && grouped(d) ==> m[key(d)] == value(d)
  {
    map d | lo <= d <= hi && grouped(d) :: key(d) := value(d)
  }

  /** d.ToString("yyyy-MM-dd") for a DateOnly d. */
  function IsoKey(d: int): string
  {
    if IsDay(d) then IsoDate(d) else ""
  }

  /** Two days of the calendar never share a key. */
  lemma IsoKeysDistinct(lo: int, hi: int)
    requires IsDay(lo) && IsDay(hi)
    ensures forall a, b :: lo <= a <= hi && lo <= b <= hi && IsoKey(a) == IsoKey(b) ==> a == b
  {
    forall a, b | lo <= a <= hi && lo <= b <= hi && IsoKey(a) == IsoKey(b) ensures a == b {
      IsoDateInjective(a, b);
    }
  }

  /** GetOccupancyStatsAsync(hotelId, startDate, endDate). */
  function GetOccupancyStats(t: Tables, hotelId: int, startDate: int, endDate: int): map<string, real>
    requires IsDay(startDate) && IsDay(endDate)
  {
    var rts := HotelRoomTypes(t.roomTypes, hotelId);
    IsoKeysDistinct(startDate, endDate);
    DayDictionary(startDate, endDate, GroupedOn(rts, t.inventory), IsoKey, OccupancyOn(rts, t.inventory))
  }

  /** The days that form a group, as the predicate the grouping applies. */
  function GroupedOn(roomTypes: seq<RoomType>, l: Ledger): int -> bool
  {
    d => HasRecordOn(roomTypes, l, d)
  }

  /** Each group's value, as the selector the dictionary applies. */
  function OccupancyOn(roomTypes: seq<RoomType>, l: Ledger): int -> real
  {
    d => DayOccupancy(roomTypes, l, d)
  }

  /**
   * The occupancy series has one entry per day of [startDate, endDate] on
   * which one of the hotel's room types has a record, keyed "yyyy-MM-dd".
   */
  lemma OccupancyStatsDays(t: Tables, hotelId: int, startDate: int, endDate: int)
    requires IsDay(startDate) && IsDay(endDate)
    ensures var m := GetOccupancyStats(t, hotelId, startDate, endDate);
            && (forall s :: s in m ==> exists day :: startDate <= day <= endDate && s == IsoDate(day))
            && (forall day :: startDate <= day <= endDate ==>
                  (IsoDate(day) in m <==>
                     exists rt :: rt in t.roomTypes && rt.hotelId == hotelId && (rt.id, day) in t.inventory))
  {
    var m := GetOccupancyStats(t, hotelId, startDate, endDate);
    forall s | s in m ensures exists day :: startDate <= day <= endDate && s == IsoDate(day) {
      var day :| startDate <= day <= endDate && s == IsoKey(day);
      assert IsDay(day);
    }
    forall day | startDate <= day <= endDate
      ensures IsoDate(day) in m <==>
                exists rt :: rt in t.roomTypes && rt.hotelId == hotelId && (rt.id, day) in t.inventory
    {
      assert IsDay(day);
      assert IsoKey(day) == IsoDate(day);
      HotelHasRecordOn(t, hotelId, day);
    }
  }

  /** Day d forms a group exactly when one of the hotel's room types has a record on d. */
  lemma HotelHasRecordOn(t: Tables, hotelId: int, day: int)
    ensures HasRecordOn(HotelRoomTypes(t.roomTypes, hotelId), t.inventory, day) <==>
              exists rt :: rt in t.roomTypes && rt.hotelId == hotelId && (rt.id, day) in t.inventory
  {
    var rts := HotelRoomTypes(t.roomTypes, hotelId);
    if exists rt :: rt in t.roomTypes && rt.hotelId == hotelId && (rt.id, day) in t.inventory {
      var rt :| rt in t.roomTypes && rt.hotelId == hotelId && (rt.id, day) in t.inventory;
      assert rt in rts;
      var i :| 0 <= i < |rts| && rts[i] == rt;
    }
    if HasRecordOn(rts, t.inventory, day) {
      var i :| 0 <= i < |rts| && (rts[i].id, day) in t.inventory;
      assert rts[i] in rts;
    }
  }

  /**
   * Each entry is the day's summed ReservedRooms * 100 / summed TotalRooms
   * (0 without rooms) rounded to 2 places, so within 0.005 of the exact
   * rate, and between 0 and 100 in a sound ledger.
   */
  lemma OccupancyStatsValues(t: Tables, hotelId: int, startDate: int, endDate: int, day: int)
    requires IsDay(startDate) && IsDay(endDate) && startDate <= day <= endDate
    requires IsoDate(day) in GetOccupancyStats(t, hotelId, startDate, endDate)
    ensures var v := GetOccupancyStats(t, hotelId, startDate, endDate)[IsoDate(day)];
            var totals := DayTotals(HotelRoomTypes(t.roomTypes, hotelId), t.inventory, day);
            && (totals.0 <= 0 ==> v == 0.0)
            && -0.005 <= v - Rate(totals.1, totals.0) <= 0.005
            && (LedgerSound(t.inventory) ==> 0.0 <= v <= 100.0)
  {
    OccupancyStatsEntry(t, hotelId, startDate, endDate, day);
    DayOccupancyBounds(HotelRoomTypes(t.roomTypes, hotelId), t.inventory, day);
  }

  /** The entry of a day is the day's occupancy. */
  lemma OccupancyStatsEntry(t: Tables, hotelId: int, startDate: int, endDate: int, day: int)
    requires IsDay(startDate) && IsDay(endDate) && startDate <= day <= endDate
    requires IsoDate(day) in GetOccupancyStats(t, hotelId, startDate, endDate)
    ensures GetOccupancyStats(t, hotelId, startDate, endDate)[IsoDate(day)]
            == DayOccupancy(HotelRoomTypes(t.roomTypes, hotelId), t.inventory, day)
  {
    var rts := HotelRoomTypes(t.roomTypes, hotelId);
    IsoKeysDistinct(startDate, endDate);
    assert IsoKey(day) == IsoDate(day);
    DayDictionaryAt(startDate, endDate, GroupedOn(rts, t.inventory), IsoKey, OccupancyOn(rts, t.inventory), day);
  }

  /** A day whose key is in the dictionary maps to its value. */
  lemma DayDictionaryAt<K>(lo: int, hi: int, grouped: int -> bool, key: int -> K, value: int -> real, d: int)
    requires forall a, b :: lo <= a <= hi && lo <= b <= hi && key(a) == key(b) ==> a == b
    requires lo <= d <= hi && key(d) in DayDictionary(lo, hi, grouped, key, value)
    ensures DayDictionary(lo, hi, grouped, key, value)[key(d)] == value(d)
  {
  }

  lemma DayOccupancyBounds(roomTypes: seq<RoomType>, l: Ledger, day: int)
    ensures var totals := DayTotals(roomTypes, l, day);
            var v := DayOccupancy(roomTypes, l, day);
            && (totals.0 <= 0 ==> v == 0.0)
            && -0.005 <= v - Rate(totals.1, totals.0) <= 0.005
            && (LedgerSound(l) ==> 0.0 <= v <= 100.0)
  {
    if LedgerSound(l) {
      DayTotalsSound(roomTypes, l, day);
    }
  }

  // ---------------------------------------------------------------------
  // The service object

  class InventoryService {
    const db: AppDbContext

    constructor (db: AppDbContext)
      ensures this.db == db
    {
      this.db := db;
    }

    /** UpdateInventoryAsync: edits the loaded record's fields and saves. */
    method UpdateInventory(k: Key, input: UpdateInventoryInput) returns (r: Result<InventoryView, Error>)
      modifies db
      ensures match UpdateInventorySpec(old(db.inventory), k, input)
              case Ok(l1) => k in l1 && r == Ok(ViewOf(k, RoomTypeName(db.roomTypes, k.0), l1[k]))
                             && db.State() == old(db.State()).(inventory := l1)
              case Err(e) => r == Err(e) && db.State() == old(db.State())
      ensures old(db.Valid()) ==> db.Valid()
    {
      var l := db.inventory;
      if k !in l {
        return Err(InventoryNotFound(k));
      }
      var record := l[k];
      if input.totalRooms < record.reservedRooms {
        return Err(TotalBelowReserved(k));
      }
      record := record.(totalRooms := input.totalRooms);
      record := record.(price := input.price);
      record := record.(isAvailable := input.isAvailable);
      if db.Valid() {
        UpdateInventoryPreservesValid(db.State(), k, input);
      }
      db.SaveChanges(db.State().(inventory := l[k := record]));
      r := Ok(ViewOf(k, RoomTypeName(db.roomTypes, k.0), record));
    }

    /**
     * BulkUpdateInventoryAsync: walks the dates of the range one by one,
     * editing the record found or adding a new one, and saves once.
     */
    method BulkUpdateInventory(u: BulkInventoryUpdate) returns (r: Result<(), Error>)
      modifies db
      ensures match BulkUpdateSpec(old(db.State()), u)
              case Ok(l1) => r == Ok(()) && db.State() == old(db.State()).(inventory := l1)
              case Err(e) => r == Err(e) && db.State() == old(db.State())
      ensures old(db.Valid()) && IsDay(u.startDate) && IsDay(u.endDate) && u.data.Valid() ==> db.Valid()
    {
      var t := db.State();
      if FindRoomType(t.roomTypes, u.roomTypeId).None? {
        return Err(RoomTypeNotFound(u.roomTypeId));
      }
      var work := t.inventory;
      var d := u.startDate;
      while d <= u.endDate
        invariant BulkFrom(t.inventory, u, u.startDate) == BulkFrom(work, u, d)
        decreases u.endDate - d
      {
        var k := (u.roomTypeId, d);
        if k in work {
          if u.data.totalRooms < work[k].reservedRooms {
            return Err(TotalBelowReserved(k));
          }
          work := work[k := work[k].(totalRooms := u.data.totalRooms, price := u.data.price,
                                     isAvailable := u.data.isAvailable)];
        } else {
          work := work[k := InventoryRecord(u.data.totalRooms, 0, u.data.price, u.data.isAvailable)];
        }
        var next := AddDays(d, 1);
        if next.None? {
          return Err(DateOutOfRange(d));
        }
        d := next.value;
      }
      if db.Valid() && IsDay(u.startDate) && IsDay(u.endDate) && u.data.Valid() {
        BulkUpdatePreservesValid(t, u);
      }
      db.SaveChanges(t.(inventory := work));
      r := Ok(());
    }
  }
}
