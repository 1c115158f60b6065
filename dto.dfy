/**
 * The shapes the services accept and return: InventoryDto with its derived
 * AvailableRooms and OccupancyPercentage, the inventory update inputs, the
 * booking inputs with their annotated ranges, BookingDto.Nights, and the
 * list, hotel, room-type and dashboard results.
 */
module Dto {
  import opened Models
  import opened Rates

  // ---------------------------------------------------------------------
  // Inventory

  /** InventoryDto: one ledger record with its key and its room type's name. */
  datatype InventoryView = InventoryView(
    roomTypeId: int,
    roomTypeName: string,
    date: int,
    totalRooms: int,
    reservedRooms: int,
    price: int,
    isAvailable: bool)
  {
    function AvailableRooms(): (n: int)
      ensures n + reservedRooms == totalRooms
    {
      totalRooms - reservedRooms
    }

    /** Reserved as a percentage of total, 0 for a record without rooms. */
    function OccupancyPercentage(): (p: real)
      ensures totalRooms <= 0 ==> p == 0.0
      ensures totalRooms > 0 ==> p * totalRooms as real == reservedRooms as real * 100.0
      ensures 0 <= reservedRooms <= totalRooms ==> 0.0 <= p <= 100.0
    {
      Rate(reservedRooms, totalRooms)
    }
  }

  /** The view of the record stored under key k. */
  function ViewOf(k: Key, roomTypeName: string, r: InventoryRecord): InventoryView
  {
    InventoryView(k.0, roomTypeName, k.1, r.totalRooms, r.reservedRooms, r.price, r.isAvailable)
  }

  /** The view shows the record's own counts: its derived values agree with the record's. */
  lemma ViewOfAgrees(k: Key, roomTypeName: string, r: InventoryRecord)
    ensures ViewOf(k, roomTypeName, r).AvailableRooms() == r.AvailableRooms()
    ensures r.Sound() ==> 0.0 <= ViewOf(k, roomTypeName, r).OccupancyPercentage() <= 100.0
  {
  }

  /** UpdateInventoryDto. */
  datatype UpdateInventoryInput = UpdateInventoryInput(totalRooms: int, price: int, isAvailable: bool)
  {
    /** [Range(0, 1000)] TotalRooms and [Range(0, 10000)] Price. */
    predicate Valid()
    {
      0 <= totalRooms <= 1000 && 0 <= price <= 10000 * Cents
    }
  }

  /** BulkInventoryUpdateDto: one update input for every date of [startDate, endDate]. */
  datatype BulkInventoryUpdate = BulkInventoryUpdate(
    roomTypeId: int,
    startDate: int,
    endDate: int,
    data: UpdateInventoryInput)

  // ---------------------------------------------------------------------
  // Bookings

  /** BookingDto.Nights: the DayNumber difference of check-out and check-in. */
  function Nights(checkIn: int, checkOut: int): (n: int)
    ensures checkIn + n == checkOut
    ensures checkIn < checkOut <==> n > 0
  {
    checkOut - checkIn
  }

  /** BookingRoomDto: one requested line. */
  datatype BookingRoom = BookingRoom(roomTypeId: int, numberOfRooms: int)
  {
    /** [Range(1, 100)] NumberOfRooms. */
    predicate Valid()
    {
      1 <= numberOfRooms <= 100
    }
  }

  /** CreateBookingDto. */
  datatype CreateBookingInput = CreateBookingInput(
    hotelId: int,
    customerName: string,
    customerEmail: string,
    customerPhone: string,
    checkIn: int,
    checkOut: int,
    numberOfGuests: int,
    notes: string,
    rooms: seq<BookingRoom>)
  {
    /** The ranges and lengths the annotations declare. */
    predicate Valid()
    {
      && 0 < |customerName| <= 200 && |customerEmail| <= 100 && |customerPhone| <= 20
      && 1 <= numberOfGuests <= 100 && |notes| <= 1000
      && forall i :: 0 <= i < |rooms| ==> rooms[i].Valid()
    }
  }

  /** PagedResult: one page of rows and the number of rows before paging. */
  datatype PagedResult<T> = PagedResult(items: seq<T>, totalItems: int, page: int, pageSize: int)

  // ---------------------------------------------------------------------
  // Room types, hotels and the dashboard

  /** CreateRoomTypeDto, and UpdateRoomTypeDto with its IsActive. */
  datatype RoomTypeInput = RoomTypeInput(
    name: string,
    hotelId: int,
    capacity: int,
    basePrice: int,
    isActive: bool)

  /** RoomTypeDto: a room type with the rooms still free today. */
  datatype RoomTypeView = RoomTypeView(roomType: RoomType, availableRooms: int)

  /** HotelDto: a hotel with its active room types and its current bookings counted. */
  datatype HotelView = HotelView(hotel: Hotel, roomTypesCount: int, activeBookingsCount: int)

  /** TopHotelDto. */
  datatype TopHotel = TopHotel(id: int, name: string, city: string, bookingCount: int, revenue: int)

  /** DashboardStatsDto. */
  datatype DashboardStats = DashboardStats(
    totalHotels: int,
    activeBookings: int,
    bookingsToday: int,
    revenueToday: int,
    occupancyRate: real,
    topHotels: seq<TopHotel>)
}
