/**
 * AppDbContext: the five tables, with the keys, unique indexes and foreign
 * keys the model configuration declares, and the ledger invariant.
 *
 * Hotels, room types and bookings are tables keyed by Id; a booking owns
 * its details (they cascade with it). Inventory is unique on (RoomTypeId,
 * Date), so it is a map from that pair to the record.
 *
 * Besides the ledger's own invariant (0 <= ReservedRooms <= TotalRooms),
 * Valid says that the ledger accounts for the bookings: on every key,
 * ReservedRooms covers at least the rooms that bookings not cancelled hold.
 */
module Context {
  import opened Wrappers
  import opened Calendar
  import opened Models
  import opened Dto
  import opened RoomLedger

  /** The stored contents of the tables at one moment. */
  datatype Tables = Tables(
    hotels: seq<Hotel>,
    roomTypes: seq<RoomType>,
    inventory: Ledger,
    bookings: seq<Booking>)

  // ---------------------------------------------------------------------
  // Lookups by key

  /** Hotels.FindAsync(id): the hotel with that Id, if any. */
  function FindHotel(hotels: seq<Hotel>, id: int): (r: Option<Hotel>)
    ensures r.Some? ==> r.value in hotels && r.value.id == id
    ensures r.None? <==> forall i :: 0 <= i < |hotels| ==> hotels[i].id != id
  {
    if hotels == [] then None
    else if hotels[0].id == id then Some(hotels[0])
    else FindHotel(hotels[1..], id)
  }

  /** The position of the hotel with that Id, if any. */
  function HotelIndex(hotels: seq<Hotel>, id: int): (r: Option<nat>)
    ensures r.Some? ==> r.value < |hotels| && hotels[r.value].id == id
    ensures r.None? <==> forall i :: 0 <= i < |hotels| ==> hotels[i].id != id
  {
    if hotels == [] then None
    else if hotels[0].id == id then Some(0)
    else match HotelIndex(hotels[1..], id)
      case None => None
      case Some(i) => Some(i + 1)
  }

  /** RoomTypes.FindAsync(id): the room type with that Id, if any. */
  function FindRoomType(roomTypes: seq<RoomType>, id: int): (r: Option<RoomType>)
    ensures r.Some? ==> r.value in roomTypes && r.value.id == id
    ensures r.None? <==> forall i :: 0 <= i < |roomTypes| ==> roomTypes[i].id != id
  {
    if roomTypes == [] then None
    else if roomTypes[0].id == id then Some(roomTypes[0])
    else FindRoomType(roomTypes[1..], id)
  }

  /** The position of the room type with that Id, if any. */
  function RoomTypeIndex(roomTypes: seq<RoomType>, id: int): (r: Option<nat>)
    ensures r.Some? ==> r.value < |roomTypes| && roomTypes[r.value].id == id
    ensures r.None? <==> forall i :: 0 <= i < |roomTypes| ==> roomTypes[i].id != id
  {
    if roomTypes == [] then None
    else if roomTypes[0].id == id then Some(0)
    else match RoomTypeIndex(roomTypes[1..], id)
      case None => None
      case Some(i) => Some(i + 1)
  }

  /** FirstOrDefault(rt => rt.Id == id && rt.HotelId == hotelId). */
  function FindRoomTypeOfHotel(roomTypes: seq<RoomType>, id: int, hotelId: int): (r: Option<RoomType>)
    ensures r.Some? ==> r.value in roomTypes && r.value.id == id && r.value.hotelId == hotelId
    ensures r.None? <==> forall i :: 0 <= i < |roomTypes| ==> !(roomTypes[i].id == id && roomTypes[i].hotelId == hotelId)
  {
    if roomTypes == [] then None
    else if roomTypes[0].id == id && roomTypes[0].hotelId == hotelId then Some(roomTypes[0])
    else FindRoomTypeOfHotel(roomTypes[1..], id, hotelId)
  }

  /** The position of the booking with that Id, if any. */
  function BookingIndex(bookings: seq<Booking>, id: int): (r: Option<nat>)
    ensures r.Some? ==> r.value < |bookings| && bookings[r.value].id == id
    ensures r.None? <==> forall i :: 0 <= i < |bookings| ==> bookings[i].id != id
  {
    if bookings == [] then None
    else if bookings[0].id == id then Some(0)
    else match BookingIndex(bookings[1..], id)
      case None => None
      case Some(i) => Some(i + 1)
  }

  /** An Id above every Id in use: what an identity column hands out next. */
  function NextId(ids: seq<int>): (r: int)
    ensures r >= 1
    ensures forall i :: 0 <= i < |ids| ==> ids[i] < r
  {
    if ids == [] then 1
    else var rest := NextId(ids[1..]); if ids[0] < rest then rest else ids[0] + 1
  }

  function RoomTypeIds(roomTypes: seq<RoomType>): (r: seq<int>)
    ensures |r| == |roomTypes|
    ensures forall i :: 0 <= i < |roomTypes| ==> r[i] == roomTypes[i].id
  {
    if roomTypes == [] then [] else [roomTypes[0].id] + RoomTypeIds(roomTypes[1..])
  }

  function BookingIds(bookings: seq<Booking>): (r: seq<int>)
    ensures |r| == |bookings|
    ensures forall i :: 0 <= i < |bookings| ==> r[i] == bookings[i].id
  {
    if bookings == [] then [] else [bookings[0].id] + BookingIds(bookings[1..])
  }

  // ---------------------------------------------------------------------
  // The rooms bookings hold

  /** The rooms booking b holds on key k: those of its details while it is not cancelled. */
  function Holding(b: Booking, k: Key): int
  {
    if b.status != StatusCancelled then Demand(LinesOf(b.details), b.checkIn, b.checkOut, k) else 0
  }

  /** The rooms all bookings not cancelled hold on key k. */
  function Held(bookings: seq<Booking>, k: Key): int
  {
    if bookings == [] then 0
    else Held(bookings[..|bookings| - 1], k) + Holding(bookings[|bookings| - 1], k)
  }

  /** Every detail books at least one room ([Range(1, 100)] on NumberOfRooms). */
  ghost predicate DetailsPositive(bookings: seq<Booking>)
  {
    forall i, j :: 0 <= i < |bookings| && 0 <= j < |bookings[i].details| ==>
      bookings[i].details[j].numberOfRooms >= 1
  }

  lemma {:induction false} HoldingNonNegative(b: Booking, k: Key)
    requires forall j :: 0 <= j < |b.details| ==> b.details[j].numberOfRooms >= 1
    ensures Holding(b, k) >= 0
  {
    RoomsNonNegative(LinesOf(b.details), k.0);
  }

  lemma {:induction false} HeldAppend(bookings: seq<Booking>, b: Booking, k: Key)
    ensures Held(bookings + [b], k) == Held(bookings, k) + Holding(b, k)
  {
    assert (bookings + [b])[..|bookings|] == bookings;
  }

  /** Held is the sum of what each booking holds, so it is at least what any one of them holds. */
  lemma {:induction false} HeldAtLeast(bookings: seq<Booking>, i: int, k: Key)
    requires DetailsPositive(bookings)
    requires 0 <= i < |bookings|
    ensures Held(bookings, k) >= Holding(bookings[i], k)
    ensures Held(bookings, k) >= 0
  {
    var n := |bookings| - 1;
    var init := bookings[..n];
    assert DetailsPositive(init) by {
      forall a, j | 0 <= a < |init| && 0 <= j < |init[a].details|
        ensures init[a].details[j].numberOfRooms >= 1
      {
        assert init[a] == bookings[a];
      }
    }
    HoldingNonNegative(bookings[n], k);
    if i < n {
      HeldAtLeast(init, i, k);
    } else if n > 0 {
      HeldAtLeast(init, 0, k);
    }
  }

  /** Replacing one booking changes Held by the difference of the two holdings. */
  lemma {:induction false} HeldUpdate(bookings: seq<Booking>, i: int, b: Booking, k: Key)
    requires 0 <= i < |bookings|
    ensures Held(bookings[i := b], k) == Held(bookings, k) - Holding(bookings[i], k) + Holding(b, k)
  {
    var n := |bookings| - 1;
    var updated := bookings[i := b];
    if i < n {
      assert updated[..n] == bookings[..n][i := b];
      HeldUpdate(bookings[..n], i, b, k);
    } else {
      assert updated[..n] == bookings[..n];
    }
  }

  /** On every key, ReservedRooms covers the rooms held by bookings not cancelled. */
  ghost predicate Accounted(l: Ledger, bookings: seq<Booking>)
  {
    forall k :: Held(bookings, k) > 0 ==> k in l && Held(bookings, k) <= l[k].reservedRooms
  }

  // ---------------------------------------------------------------------
  // The invariant

  ghost predicate UniqueHotelIds(hotels: seq<Hotel>)
  {
    forall i, j :: 0 <= i < j < |hotels| ==> hotels[i].id != hotels[j].id
  }

  ghost predicate UniqueRoomTypeIds(roomTypes: seq<RoomType>)
  {
    forall i, j :: 0 <= i < j < |roomTypes| ==> roomTypes[i].id != roomTypes[j].id
  }

  /** Booking Ids are keys, and BookingNumber has a unique index. */
  ghost predicate UniqueBookings(bookings: seq<Booking>)
  {
    forall i, j :: 0 <= i < j < |bookings| ==>
      bookings[i].id != bookings[j].id && bookings[i].bookingNumber != bookings[j].bookingNumber
  }

  /** A booking refers to a stored hotel, and each of its details to a stored room type. */
  ghost predicate BookingLinked(b: Booking, hotels: seq<Hotel>, roomTypes: seq<RoomType>)
  {
    && FindHotel(hotels, b.hotelId).Some?
    && IsDay(b.checkIn) && IsDay(b.checkOut)
    && forall j :: 0 <= j < |b.details| ==> FindRoomType(roomTypes, b.details[j].roomTypeId).Some?
  }

  ghost predicate ValidTables(t: Tables)
  {
    && UniqueHotelIds(t.hotels)
    && UniqueRoomTypeIds(t.roomTypes)
    && UniqueBookings(t.bookings)
    // foreign keys: RoomType.HotelId, Inventory.RoomTypeId, Booking.HotelId, BookingDetail.RoomTypeId
    && (forall i :: 0 <= i < |t.roomTypes| ==> FindHotel(t.hotels, t.roomTypes[i].hotelId).Some?)
    && (forall k :: k in t.inventory ==> FindRoomType(t.roomTypes, k.0).Some? && IsDay(k.1))
    && (forall i :: 0 <= i < |t.bookings| ==> BookingLinked(t.bookings[i], t.hotels, t.roomTypes))
    && DetailsPositive(t.bookings)
    && LedgerSound(t.inventory)
    && Accounted(t.inventory, t.bookings)
  }

  /** The empty database is valid. */
  lemma EmptyValid()
    ensures ValidTables(Tables([], [], map[], []))
  {
    assert forall k :: Held([], k) == 0;
  }

  // ---------------------------------------------------------------------
  // The context object

  /** The DbContext a service works through; SaveChangesAsync is the commit. */
  class AppDbContext {
    var hotels: seq<Hotel>
    var roomTypes: seq<RoomType>
    var inventory: Ledger
    var bookings: seq<Booking>

    function State(): Tables
      reads this
    {
      Tables(hotels, roomTypes, inventory, bookings)
    }

    ghost predicate Valid()
      reads this
    {
      ValidTables(State())
    }

    constructor ()
      ensures State() == Tables([], [], map[], [])
      ensures Valid()
    {
      hotels, roomTypes, inventory, bookings := [], [], map[], [];
      EmptyValid();
    }

    /** SaveChangesAsync: the working copy becomes the stored state, all at once. */
    method SaveChanges(t: Tables)
      modifies this
      ensures State() == t
    {
      hotels, roomTypes, inventory, bookings := t.hotels, t.roomTypes, t.inventory, t.bookings;
    }
  }
}
