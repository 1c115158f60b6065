/**
 * The persisted entities: Hotel, RoomType, Inventory (the ledger record),
 * Booking and BookingDetail, with the ranges their annotations declare.
 *
 * Money is held in cents: every monetary column is decimal(18,2), an exact
 * fixed-point number with two decimals. A DateOnly is its DayNumber and a
 * DateTime a count of seconds (see module Calendar).
 */
module Models {
  import opened Calendar

  /** Cents per currency unit: decimal(18,2) keeps two decimals. */
  const Cents: int := 100

  // ---------------------------------------------------------------------
  // Hotel

  datatype Hotel = Hotel(
    id: int,
    name: string,
    chainCode: string,
    city: string,
    country: string,
    starRating: int,
    isActive: bool)
  {
    /** [Required] Name, City, Country with their [MaxLength]s and [Range(1, 5)] StarRating. */
    predicate WellFormed()
    {
      && 0 < |name| <= 200 && |chainCode| <= 50
      && 0 < |city| <= 100 && 0 < |country| <= 100
      && 1 <= starRating <= 5
    }
  }

  /** A hotel as the entity's initialisers leave it: 3 stars and active. */
  function NewHotel(id: int, name: string, chainCode: string, city: string, country: string): (h: Hotel)
    ensures h.isActive && h.starRating == 3
    ensures 0 < |name| <= 200 && |chainCode| <= 50 && 0 < |city| <= 100 && 0 < |country| <= 100
            ==> h.WellFormed()
  {
    Hotel(id, name, chainCode, city, country, 3, true)
  }

  // ---------------------------------------------------------------------
  // RoomType

  datatype RoomType = RoomType(
    id: int,
    hotelId: int,
    name: string,
    capacity: int,
    basePrice: int,
    isActive: bool)
  {
    /** [Range(1, 10)] Capacity and [Range(0, 10000)] BasePrice. */
    predicate WellFormed()
    {
      0 < |name| <= 100 && 1 <= capacity <= 10 && 0 <= basePrice <= 10000 * Cents
    }
  }

  // ---------------------------------------------------------------------
  // Inventory: one ledger record

  /**
   * The record of one room type on one date. Its key (RoomTypeId, Date) is
   * unique, so the ledger is a map from that pair to the record.
   */
  datatype InventoryRecord = InventoryRecord(
    totalRooms: int,
    reservedRooms: int,
    price: int,
    isAvailable: bool)
  {
    /** The [NotMapped] AvailableRooms property. */
    function AvailableRooms(): (n: int)
      ensures n + reservedRooms == totalRooms
    {
      totalRooms - reservedRooms
    }

    /** The central invariant: never more rooms reserved than offered, never fewer than none. */
    predicate Sound()
    {
      0 <= reservedRooms <= totalRooms
    }

    /** [Range(0, 1000)] on TotalRooms and ReservedRooms, [Range(0, 10000)] on Price. */
    predicate WellFormed()
    {
      0 <= totalRooms <= 1000 && 0 <= reservedRooms <= 1000 && 0 <= price <= 10000 * Cents
    }
  }

  /** The ledger key: (RoomTypeId, Date). */
  type Key = (int, int)

  type Ledger = map<Key, InventoryRecord>

  /** Every record of the ledger satisfies 0 <= ReservedRooms <= TotalRooms. */
  ghost predicate LedgerSound(l: Ledger)
  {
    forall k :: k in l ==> l[k].Sound()
  }

  // ---------------------------------------------------------------------
  // Booking and BookingDetail

  const StatusPending: string := "Pending"
  const StatusConfirmed: string := "Confirmed"
  const StatusCancelled: string := "Cancelled"
  const StatusCheckedIn: string := "CheckedIn"
  const StatusCheckedOut: string := "CheckedOut"

  /** One booked room line; it belongs to the booking whose details hold it. */
  datatype BookingDetail = BookingDetail(
    roomTypeId: int,
    numberOfRooms: int,
    pricePerRoom: int,
    subtotal: int)
  {
    /** [Range(1, 100)] NumberOfRooms, [Range(0, 10000)] PricePerRoom, [Range(0, 1000000)] Subtotal. */
    predicate WellFormed()
    {
      1 <= numberOfRooms <= 100 && 0 <= pricePerRoom <= 10000 * Cents
      && 0 <= subtotal <= 1000000 * Cents
    }
  }

  /** The booking aggregate: it owns its details. */
  datatype Booking = Booking(
    id: int,
    bookingNumber: string,
    hotelId: int,
    customerName: string,
    customerEmail: string,
    customerPhone: string,
    checkIn: int,
    checkOut: int,
    numberOfGuests: int,
    totalAmount: int,
    status: string,
    notes: string,
    createdAt: int,
    details: seq<BookingDetail>)
  {
    /** [Required][MaxLength(50)] BookingNumber, [Range(1, 100)] guests, [Range(0, 1000000)] total, [MaxLength(20)] Status. */
    predicate WellFormed()
    {
      && 0 < |bookingNumber| <= 50
      && 1 <= numberOfGuests <= 100
      && 0 <= totalAmount <= 1000000 * Cents
      && 0 < |status| <= 20
    }
  }

  /** The status a booking gets when nothing sets it. */
  const DefaultStatus: string := StatusPending

  // ---------------------------------------------------------------------
  // The exceptions the services throw, and the database's refusals at save

  datatype Error =
    | HotelNotFound(hotelId: int)                    // ArgumentException / KeyNotFoundException
    | StayNotOrdered                                 // check-in not before check-out
    | RoomTypeNotInHotel(roomTypeId: int, hotelId: int)
    | RoomTypeInactive(roomTypeId: int)
    | NoAvailability(roomTypeId: int, date: int)     // no record, or IsAvailable false
    | NotEnoughRooms(roomTypeId: int, date: int)
    | InventoryMissing(roomTypeId: int, date: int)   // FirstAsync finds no record
    | DuplicateBookingNumber(bookingNumber: string)  // the unique index on BookingNumber
    | BookingNotFound(bookingId: int)
    | InventoryNotFound(key: Key)
    | TotalBelowReserved(key: Key)
    | RoomTypeNotFound(roomTypeId: int)
    | DateOutOfRange(date: int)                      // DateOnly.AddDays / AddMonths beyond the calendar
    | DuplicateInventory(key: Key)                   // the unique index on (RoomTypeId, Date)
    | HotelReferenceBroken(hotelId: int)             // foreign key RoomType.HotelId
}
