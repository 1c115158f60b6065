/**
 * HotelService: the searched, filtered and paged hotel list with its
 * per-hotel counts, the soft delete of a hotel, and the list of countries
 * that have an active hotel.
 */
module HotelServices {
  import opened Wrappers
  import opened Seqs
  import opened Text
  import opened Calendar
  import opened Models
  import opened Dto
  import opened Context
  import opened RoomTypeServices

  // ---------------------------------------------------------------------
  // GetHotelsAsync: the query

  /**
   * The parameters of the hotel list: a search text, a country and the
   * activeOnly flag (a nullable bool). A blank search or country keeps
   * every hotel, and so does an activeOnly that is absent or false.
   */
  datatype HotelFilter = HotelFilter(search: string, country: string, activeOnly: Option<bool>)
  {
    /** The lowered search text occurs in the lowered Name, City, Country or ChainCode. */
    predicate Matches(h: Hotel)
    {
      var q := ToLower(search);
      || Contains(ToLower(h.name), q)
      || Contains(ToLower(h.city), q)
      || Contains(ToLower(h.country), q)
      || Contains(ToLower(h.chainCode), q)
    }

    predicate Keeps(h: Hotel)
    {
      && (IsBlank(search) || Matches(h))
      && (IsBlank(country) || h.country == country)
      && (activeOnly != Some(true) || h.isActive)
    }
  }

  /** OrderBy(h => h.Name). */
  predicate ByName(a: Hotel, b: Hotel)
  {
    LexLe(a.name, b.name)
  }

  lemma ByNameOrders()
    ensures TotalPreorder(ByName)
  {
    forall a, b ensures ByName(a, b) || ByName(b, a) {
      LexLeTotal(a.name, b.name);
    }
    forall a, b, c | ByName(a, b) && ByName(b, c) ensures ByName(a, c) {
      LexLeTransitive(a.name, b.name, c.name);
    }
  }

  /** The hotels the filter keeps, ordered by name. */
  function KeptByName(hotels: seq<Hotel>, f: HotelFilter): (r: seq<Hotel>)
    ensures SortedBy(r, ByName)
    ensures multiset(r) == multiset(Filter(hotels, f.Keeps))
  {
    ByNameOrders();
    SortBy(Filter(hotels, f.Keeps), ByName)
  }

  /** The query part of GetHotelsAsync: count the kept hotels, then order them by name and cut out the page. */
  function HotelsPage(hotels: seq<Hotel>, page: int, pageSize: int, f: HotelFilter): PagedResult<Hotel>
  {
    PagedResult(Page(KeptByName(hotels, f), page, pageSize), Count(hotels, f.Keeps), page, pageSize)
  }

  /** TotalItems counts before paging: it is the number of kept hotels, zero exactly when none is kept. */
  lemma HotelsPageTotal(hotels: seq<Hotel>, page: int, pageSize: int, f: HotelFilter)
    ensures HotelsPage(hotels, page, pageSize, f).totalItems == |KeptByName(hotels, f)|
    ensures HotelsPage(hotels, page, pageSize, f).totalItems == 0 <==>
              forall h :: h in hotels ==> !f.Keeps(h)
  {
    var r := KeptByName(hotels, f);
    assert |r| == |multiset(r)| == |multiset(Filter(hotels, f.Keeps))|;
  }

  /** A blank search, a blank country and no activeOnly keep every hotel. */
  lemma NoFilterKeepsAll(hotels: seq<Hotel>, page: int, pageSize: int, f: HotelFilter)
    requires IsBlank(f.search) && IsBlank(f.country) && f.activeOnly != Some(true)
    ensures HotelsPage(hotels, page, pageSize, f).totalItems == |hotels|
    ensures multiset(KeptByName(hotels, f)) == multiset(hotels)
  {
    FilterAll(hotels, f.Keeps);
  }

  lemma {:induction false} FilterAll<T(!new)>(s: seq<T>, p: T -> bool)
    requires forall x :: x in s ==> p(x)
    ensures Filter(s, p) == s
  {
    if s != [] {
      FilterAll(s[1..], p);
      assert s == [s[0]] + s[1..];
    }
  }

  /** Every hotel on a page is a stored hotel the filters keep. */
  lemma HotelsPageKept(hotels: seq<Hotel>, page: int, pageSize: int, f: HotelFilter)
    requires page >= 1 && pageSize >= 1
    ensures forall h :: h in HotelsPage(hotels, page, pageSize, f).items ==> h in hotels && f.Keeps(h)
  {
    var sorted := KeptByName(hotels, f);
    PageMembers(sorted, page, pageSize);
    forall h | h in sorted ensures h in hotels && f.Keeps(h) {
      assert h in multiset(sorted);
    }
  }

  /**
   * A page holds at most pageSize hotels in name order, and its i-th item
   * is the kept hotel at position (page - 1) * pageSize + i.
   */
  lemma HotelsPageOrder(hotels: seq<Hotel>, page: int, pageSize: int, f: HotelFilter)
    requires page >= 1 && pageSize >= 1
    ensures |HotelsPage(hotels, page, pageSize, f).items| <= pageSize
    ensures var items := HotelsPage(hotels, page, pageSize, f).items;
            forall i, j :: 0 <= i < j < |items| ==> LexLe(items[i].name, items[j].name)
    ensures var items := HotelsPage(hotels, page, pageSize, f).items;
            forall i :: 0 <= i < |items| ==> items[i] == KeptByName(hotels, f)[Offset(page, pageSize) + i]
  {
    var sorted := KeptByName(hotels, f);
    PageContents(sorted, page, pageSize);
    PageOfSorted(sorted, page, pageSize, ByName);
    var items := Page(sorted, page, pageSize);
    forall i, j | 0 <= i < j < |items| ensures LexLe(items[i].name, items[j].name) {
      assert ByName(items[i], items[j]);
    }
  }

  // ---------------------------------------------------------------------
  // GetHotelsAsync: the counts

  /** A booking of the hotel that is neither Cancelled nor CheckedOut and whose stay includes today. */
  predicate Current(b: Booking, hotelId: int, today: int)
  {
    && b.hotelId == hotelId
    && b.status != StatusCancelled && b.status != StatusCheckedOut
    && b.checkIn <= today <= b.checkOut
  }

  /** The Where of the ActiveBookingsCount query. */
  function CurrentAt(hotelId: int, today: int): Booking -> bool
  {
    (b: Booking) => Current(b, hotelId, today)
  }

  /** HotelDto of a listed hotel: its active room types and its current bookings counted. */
  function HotelCounts(t: Tables, h: Hotel, today: int): (v: HotelView)
    ensures v.hotel == h
    ensures v.roomTypesCount == |ActiveRoomTypes(t.roomTypes, h.id)| <= |t.roomTypes|
    ensures v.activeBookingsCount == |Filter(t.bookings, CurrentAt(h.id, today))| <= |t.bookings|
    ensures v.activeBookingsCount == 0 <==> forall b :: b in t.bookings ==> !Current(b, h.id, today)
  {
    HotelView(h, Count(t.roomTypes, ActiveOfHotel(h.id)), Count(t.bookings, CurrentAt(h.id, today)))
  }

  /** RoomTypesCount is the length of the hotel's room-type list. */
  lemma RoomTypesCountIsListed(t: Tables, h: Hotel, today: int)
    ensures HotelCounts(t, h, today).roomTypesCount == |ActiveRoomTypes(t.roomTypes, h.id)|
    ensures HotelCounts(t, h, today).roomTypesCount == 0 <==>
              forall rt :: rt in t.roomTypes && rt.hotelId == h.id ==> !rt.isActive
  {
  }

  /** Soft-deleting a room type of the hotel lowers its count by one; an inactive or unknown one changes nothing. */
  lemma RoomTypesCountAfterDelete(t: Tables, h: Hotel, today: int, id: int)
    requires UniqueRoomTypeIds(t.roomTypes)
    ensures var (deleted, rts) := DeleteRoomTypeSpec(t.roomTypes, id);
            var before := HotelCounts(t, h, today).roomTypesCount;
            var after := HotelCounts(t.(roomTypes := rts), h, today).roomTypesCount;
            after == if deleted && FindRoomType(t.roomTypes, id).value.hotelId == h.id
                        && FindRoomType(t.roomTypes, id).value.isActive
                     then before - 1 else before
  {
    var (deleted, rts) := DeleteRoomTypeSpec(t.roomTypes, id);
    if deleted {
      var i := RoomTypeIndex(t.roomTypes, id).value;
      FindRoomTypeUnique(t.roomTypes, id, i);
      CountUpdate(t.roomTypes, i, rts[i], ActiveOfHotel(h.id));
      assert rts == t.roomTypes[i := rts[i]];
    }
  }

  /** Under unique Ids the room type found under an Id is the one at the index of that Id. */
  lemma FindRoomTypeUnique(roomTypes: seq<RoomType>, id: int, i: int)
    requires UniqueRoomTypeIds(roomTypes)
    requires 0 <= i < |roomTypes| && roomTypes[i].id == id
    ensures FindRoomType(roomTypes, id) == Some(roomTypes[i])
  {
    var r := FindRoomType(roomTypes, id).value;
    var j :| 0 <= j < |roomTypes| && roomTypes[j] == r;
    assert i == j;
  }

  /** Count after replacing one element. */
  lemma {:induction false} CountUpdate<T(!new)>(s: seq<T>, i: int, x: T, p: T -> bool)
    requires 0 <= i < |s|
    ensures Count(s[i := x], p) == Count(s, p) - (if p(s[i]) then 1 else 0) + (if p(x) then 1 else 0)
  {
    if i > 0 {
      CountUpdate(s[1..], i - 1, x, p);
      assert s[i := x][1..] == s[1..][i - 1 := x];
    } else {
      assert s[i := x][1..] == s[1..];
    }
  }

  // ---------------------------------------------------------------------
  // DeleteHotelAsync

  /** DeleteHotelAsync(id): false for an unknown Id; otherwise only IsActive is cleared and the row stays. */
  function DeleteHotelSpec(hotels: seq<Hotel>, id: int): (r: (bool, seq<Hotel>))
    ensures r.0 <==> FindHotel(hotels, id).Some?
    ensures !r.0 ==> r.1 == hotels
    ensures |r.1| == |hotels|
    ensures forall i :: 0 <= i < |hotels| ==>
              && r.1[i].(isActive := hotels[i].isActive) == hotels[i]
              && (r.1[i].isActive <==> hotels[i].isActive && !(r.0 && i == HotelIndex(hotels, id).value))
  {
    match HotelIndex(hotels, id)
    case None => (false, hotels)
    case Some(i) => (true, hotels[i := hotels[i].(isActive := false)])
  }

  /** Deleting twice is deleting once. */
  lemma DeleteHotelIdempotent(hotels: seq<Hotel>, id: int)
    ensures DeleteHotelSpec(DeleteHotelSpec(hotels, id).1, id).1 == DeleteHotelSpec(hotels, id).1
  {
    var h1 := DeleteHotelSpec(hotels, id).1;
    if FindHotel(hotels, id).Some? {
      HotelIndexSame(hotels, h1, id);
    }
  }

  /** Two tables with the same Ids in the same places find an Id at the same place. */
  lemma {:induction false} HotelIndexSame(a: seq<Hotel>, b: seq<Hotel>, id: int)
    requires |a| == |b| && forall i :: 0 <= i < |a| ==> a[i].id == b[i].id
    ensures HotelIndex(a, id) == HotelIndex(b, id)
  {
    if a != [] {
      HotelIndexSame(a[1..], b[1..], id);
    }
  }

  /** Two tables with the same Ids in the same places hold the same Ids. */
  lemma SameIdsFindHotel(a: seq<Hotel>, b: seq<Hotel>)
    requires |a| == |b| && forall i :: 0 <= i < |a| ==> a[i].id == b[i].id
    ensures forall hid :: FindHotel(a, hid).Some? <==> FindHotel(b, hid).Some?
    ensures UniqueHotelIds(a) ==> UniqueHotelIds(b)
  {
    forall hid ensures FindHotel(a, hid).None? <==> FindHotel(b, hid).None? {
    }
  }

  /** A soft delete keeps a valid database valid: every reference to the hotel still resolves. */
  lemma DeleteHotelPreservesValid(t: Tables, id: int)
    requires ValidTables(t)
    ensures ValidTables(t.(hotels := DeleteHotelSpec(t.hotels, id).1))
  {
    var h1 := DeleteHotelSpec(t.hotels, id).1;
    assert forall i :: 0 <= i < |h1| ==> t.hotels[i].id == h1[i].id by {
      forall i | 0 <= i < |h1| ensures t.hotels[i].id == h1[i].id {
        assert h1[i].(isActive := t.hotels[i].isActive) == t.hotels[i];
      }
    }
    SameIdsFindHotel(t.hotels, h1);
    assert forall i :: 0 <= i < |t.bookings| ==> BookingLinked(t.bookings[i], h1, t.roomTypes);
  }

  /** A soft-deleted hotel leaves the list whenever activeOnly is set; every hotel still listed is a stored one, unchanged. */
  lemma DeletedHotelLeavesActiveList(hotels: seq<Hotel>, id: int, f: HotelFilter)
    requires f.activeOnly == Some(true)
    requires UniqueHotelIds(hotels)
    ensures forall h :: h in Filter(DeleteHotelSpec(hotels, id).1, f.Keeps) ==> h.id != id && h in hotels
  {
    var h1 := DeleteHotelSpec(hotels, id).1;
    forall h | h in Filter(h1, f.Keeps) ensures h.id != id && h in hotels {
      var i :| 0 <= i < |h1| && h1[i] == h;
      assert h1[i].isActive;
      assert h1[i] == hotels[i];
    }
  }

  // ---------------------------------------------------------------------
  // GetCountriesAsync

  /** Select(h => h.Country). */
  function CountriesOf(hotels: seq<Hotel>): (r: seq<string>)
    ensures forall c :: c in r <==> exists h :: h in hotels && h.country == c
  {
    if hotels == [] then []
    else [hotels[0].country] + CountriesOf(hotels[1..])
  }

  /**
   * GetCountriesAsync: the countries of the active hotels, each once,
   * in ascending order.
   */
  function GetCountries(hotels: seq<Hotel>): (r: seq<string>)
    ensures forall i, j :: 0 <= i < j < |r| ==> LexLe(r[i], r[j]) && r[i] != r[j]
    ensures forall c :: c in r <==> exists h :: h in hotels && h.isActive && h.country == c
  {
    var active := Filter(hotels, (h: Hotel) => h.isActive);
    var distinct := Distinct(CountriesOf(active));
    LexLeOrders();
    var r := SortBy(distinct, LexLe);
    PermutationKeepsNoDuplicates(distinct, r);
    assert forall c :: c in r <==> c in distinct by {
      forall c ensures c in r <==> c in distinct {
        assert c in r <==> c in multiset(r);
        assert c in distinct <==> c in multiset(distinct);
      }
    }
    r
  }

  lemma LexLeOrders()
    ensures TotalPreorder(LexLe)
  {
    forall a, b ensures LexLe(a, b) || LexLe(b, a) {
      LexLeTotal(a, b);
    }
    forall a, b, c | LexLe(a, b) && LexLe(b, c) ensures LexLe(a, c) {
      LexLeTransitive(a, b, c);
    }
  }

  /** The listed countries are strictly ascending: no country can be inserted twice or out of order. */
  lemma CountriesStrictlyAscending(hotels: seq<Hotel>, i: int, j: int)
    requires 0 <= i < j < |GetCountries(hotels)|
    ensures !LexLe(GetCountries(hotels)[j], GetCountries(hotels)[i])
  {
    var r := GetCountries(hotels);
    if LexLe(r[j], r[i]) {
      LexLeAntisymmetric(r[i], r[j]);
    }
  }

  // ---------------------------------------------------------------------
  // The service object

  class HotelService {
    const db: AppDbContext

    constructor (db: AppDbContext)
      ensures this.db == db
    {
      this.db := db;
    }

    /**
     * GetHotelsAsync at instant now: the page of the query, each hotel
     * given its counts in the loop that fills in the DTOs.
     */
    method GetHotels(page: int, pageSize: int, f: HotelFilter, now: int) returns (r: PagedResult<HotelView>)
      ensures var p := HotelsPage(db.hotels, page, pageSize, f);
              && r.totalItems == p.totalItems && r.page == page && r.pageSize == pageSize
              && |r.items| == |p.items|
              && (forall i :: 0 <= i < |r.items| ==> r.items[i] == HotelCounts(db.State(), p.items[i], DateOf(now)))
    {
      var p := HotelsPage(db.hotels, page, pageSize, f);
      var views := CountPerHotel(db.State(), p.items, DateOf(now));
      r := PagedResult(views, p.totalItems, page, pageSize);
    }

    /** The foreach over the page: each hotel's active room types and current bookings, counted. */
    method CountPerHotel(t: Tables, hotels: seq<Hotel>, today: int) returns (views: seq<HotelView>)
      ensures |views| == |hotels|
      ensures forall i :: 0 <= i < |hotels| ==> views[i] == HotelCounts(t, hotels[i], today)
    {
      views := [];
      var i := 0;
      while i < |hotels|
        invariant 0 <= i <= |hotels| && |views| == i
        invariant forall j :: 0 <= j < i ==> views[j] == HotelCounts(t, hotels[j], today)
      {
        var h := hotels[i];
        var roomTypesCount := Count(t.roomTypes, ActiveOfHotel(h.id));
        var activeBookings := Count(t.bookings, CurrentAt(h.id, today));
        var v := HotelView(h, roomTypesCount, activeBookings);
        assert v == HotelCounts(t, h, today);
        var views' := views + [v];
        forall j | 0 <= j < i ensures views'[j] == views[j] {
        }
        views := views';
        i := i + 1;
      }
    }

    /** DeleteHotelAsync(id): a soft delete. */
    method DeleteHotel(id: int) returns (deleted: bool)
      modifies db
      ensures (deleted, db.hotels) == DeleteHotelSpec(old(db.hotels), id)
      ensures db.roomTypes == old(db.roomTypes) && db.inventory == old(db.inventory) && db.bookings == old(db.bookings)
      ensures old(db.Valid()) ==> db.Valid()
    {
      var found := HotelIndex(db.hotels, id);
      if found.None? {
        return false;
      }
      var i := found.value;
      if db.Valid() {
        DeleteHotelPreservesValid(db.State(), id);
      }
      db.SaveChanges(db.State().(hotels := db.hotels[i := db.hotels[i].(isActive := false)]));
      deleted := true;
    }
  }
}
