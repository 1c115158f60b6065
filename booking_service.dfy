/**
 * BookingService: creating a booking (validate, check every night of every
 * line, price, reserve, commit) and changing a booking's status (with the
 * release of its rooms when it becomes "Cancelled").
 *
 * Each operation is a specification function over the stored tables and a
 * method of BookingService that walks the same loops on a working copy and
 * commits with SaveChanges; the method's postcondition ties it to the
 * function, and the lemmas state what the function promises.
 */
module BookingServices {
  import opened Wrappers
  import opened Calendar
  import opened Text
  import opened Models
  import opened Dto
  import opened RoomLedger
  import opened Context

  // ---------------------------------------------------------------------
  // GenerateBookingNumber

  /** "ALT", the UTC instant as yyyyMMddHHmmss, and the random number drawn from [1000, 9999). */
  function BookingNumber(now: int, suffix: int): (s: string)
    requires IsDateTime(now) && 1000 <= suffix < 9999
    ensures |s| == 21 && s[..3] == "ALT"
    ensures forall i :: 3 <= i < 21 ==> IsDigit(s[i])
  {
    "ALT" + CompactTimestamp(now) + Digits(suffix, 4)
  }

  /** Reads a booking number back into its instant and its random part. */
  function ParseBookingNumber(s: string): Option<(int, int)>
  {
    if |s| == 21 && s[..3] == "ALT" then
      match ParseCompactTimestamp(s[3..17])
      case None => None
      case Some(t) => Some((t, DigitsValue(s[17..])))
    else None
  }

  /** A booking number carries the instant and the random number it was made from. */
  lemma BookingNumberRoundTrip(now: int, suffix: int)
    requires IsDateTime(now) && 1000 <= suffix < 9999
    ensures ParseBookingNumber(BookingNumber(now, suffix)) == Some((now, suffix))
  {
    var s := BookingNumber(now, suffix);
    assert s[3..17] == CompactTimestamp(now);
    assert s[17..] == Digits(suffix, 4);
    CompactTimestampRoundTrip(now);
    assert Pow10(4) == 10000;
    DigitsRoundTrip(suffix, 4);
  }

  /** Two bookings get the same number only when made in the same second with the same random draw. */
  lemma BookingNumberInjective(now1: int, suffix1: int, now2: int, suffix2: int)
    requires IsDateTime(now1) && 1000 <= suffix1 < 9999
    requires IsDateTime(now2) && 1000 <= suffix2 < 9999
    requires BookingNumber(now1, suffix1) == BookingNumber(now2, suffix2)
    ensures now1 == now2 && suffix1 == suffix2
  {
    BookingNumberRoundTrip(now1, suffix1);
    BookingNumberRoundTrip(now2, suffix2);
  }

  // ---------------------------------------------------------------------
  // CreateBooking

  /** The room type can be booked in that hotel: it belongs to it and is active. */
  predicate RoomTypeUsable(roomTypes: seq<RoomType>, id: int, hotelId: int)
  {
    var r := FindRoomTypeOfHotel(roomTypes, id, hotelId);
    r.Some? && r.value.isActive
  }

  ghost predicate LinesUsable(roomTypes: seq<RoomType>, rooms: seq<BookingRoom>, hotelId: int)
  {
    forall i :: 0 <= i < |rooms| ==> RoomTypeUsable(roomTypes, rooms[i].roomTypeId, hotelId)
  }

  /**
   * The detail of one line: the price per room is the stored price of the
   * check-in night when positive (FirstOrDefault gives 0 without a record),
   * else the room type's base price; the subtotal covers every night.
   */
  function DetailFor(stored: Ledger, rt: RoomType, room: BookingRoom, checkIn: int, checkOut: int): (d: BookingDetail)
    ensures LineOf(d) == room
  {
    var key := (room.roomTypeId, checkIn);
    var first := if key in stored then stored[key].price else 0;
    var price := if first > 0 then first else rt.basePrice;
    BookingDetail(room.roomTypeId, room.numberOfRooms, price, room.numberOfRooms * price * Nights(checkIn, checkOut))
  }

  /** A detail priced from non-negative prices for a non-empty stay has a non-negative subtotal. */
  lemma DetailForNonNegative(stored: Ledger, rt: RoomType, room: BookingRoom, checkIn: int, checkOut: int)
    requires rt.basePrice >= 0 && room.numberOfRooms >= 0 && checkIn < checkOut
    requires (room.roomTypeId, checkIn) in stored ==> stored[(room.roomTypeId, checkIn)].price >= 0
    ensures DetailFor(stored, rt, room, checkIn, checkOut).pricePerRoom >= 0
    ensures DetailFor(stored, rt, room, checkIn, checkOut).subtotal >= 0
  {
    var d := DetailFor(stored, rt, room, checkIn, checkOut);
    assert d.subtotal == (room.numberOfRooms * d.pricePerRoom) * (checkOut - checkIn);
  }

  /** One pass of the foreach: room-type lookup, active check, availability, price, increment. */
  function PlaceLine(t: Tables, input: CreateBookingInput, work: Ledger, room: BookingRoom): Result<(Ledger, BookingDetail), Error>
  {
    match FindRoomTypeOfHotel(t.roomTypes, room.roomTypeId, input.hotelId)
    case None => Err(RoomTypeNotInHotel(room.roomTypeId, input.hotelId))
    case Some(rt) =>
      if !rt.isActive then Err(RoomTypeInactive(rt.id))
      else match AllocateLine(work, room, input.checkIn, input.checkOut)
        case Err(e) => Err(e)
        case Ok(w) => Ok((w, DetailFor(t.inventory, rt, room, input.checkIn, input.checkOut)))
  }

  /** The foreach over the requested lines, carrying the working ledger, the details and the total. */
  function PlaceLines(t: Tables, input: CreateBookingInput, work: Ledger, details: seq<BookingDetail>, total: int,
                      rooms: seq<BookingRoom>): Result<(Ledger, seq<BookingDetail>, int), Error>
    decreases |rooms|
  {
    if rooms == [] then Ok((work, details, total))
    else match PlaceLine(t, input, work, rooms[0])
      case Err(e) => Err(e)
      case Ok((w, d)) => PlaceLines(t, input, w, details + [d], total + d.subtotal, rooms[1..])
  }

  /** The sum of the details' subtotals. */
  function TotalOf(ds: seq<BookingDetail>): int
  {
    if ds == [] then 0 else ds[0].subtotal + TotalOf(ds[1..])
  }

  /** The unique index on BookingNumber already holds this number. */
  predicate NumberTaken(bookings: seq<Booking>, number: string)
  {
    exists i :: 0 <= i < |bookings| && bookings[i].bookingNumber == number
  }

  /**
   * CreateBookingAsync at instant `now`, with `suffix` the random draw: the
   * new tables and the stored booking, or the exception it throws. A
   * number the unique index already holds makes SaveChanges fail.
   */
  function CreateBookingSpec(t: Tables, input: CreateBookingInput, now: int, suffix: int): Result<(Tables, Booking), Error>
    requires IsDateTime(now) && 1000 <= suffix < 9999
  {
    if FindHotel(t.hotels, input.hotelId).None? then Err(HotelNotFound(input.hotelId))
    else if input.checkIn >= input.checkOut then Err(StayNotOrdered)
    else match PlaceLines(t, input, t.inventory, [], 0, input.rooms)
      case Err(e) => Err(e)
      case Ok((l, details, total)) =>
        var number := BookingNumber(now, suffix);
        if NumberTaken(t.bookings, number) then Err(DuplicateBookingNumber(number))
        else
          var b := NewBooking(t.bookings, input, number, now, details, total);
          Ok((t.(inventory := l, bookings := t.bookings + [b]), b))
  }

  /** The booking row as mapped from the input, with its number, creation time, status, details and total. */
  function NewBooking(bookings: seq<Booking>, input: CreateBookingInput, number: string, now: int,
                      details: seq<BookingDetail>, total: int): (b: Booking)
    ensures forall j :: 0 <= j < |bookings| ==> bookings[j].id < b.id
  {
    Booking(NextId(BookingIds(bookings)), number, input.hotelId, input.customerName,
            input.customerEmail, input.customerPhone, input.checkIn, input.checkOut,
            input.numberOfGuests, total, StatusConfirmed, input.notes, now, details)
  }

  /** A successful CreateBooking is the placed lines with the new booking appended. */
  lemma CreateBookingUnfold(t: Tables, input: CreateBookingInput, now: int, suffix: int)
    requires IsDateTime(now) && 1000 <= suffix < 9999
    requires CreateBookingSpec(t, input, now, suffix).Ok?
    ensures FindHotel(t.hotels, input.hotelId).Some? && input.checkIn < input.checkOut
    ensures !NumberTaken(t.bookings, BookingNumber(now, suffix))
    ensures var r := PlaceLines(t, input, t.inventory, [], 0, input.rooms);
            && r.Ok?
            && var b := NewBooking(t.bookings, input, BookingNumber(now, suffix), now, r.value.1, r.value.2);
               CreateBookingSpec(t, input, now, suffix).value == (t.(inventory := r.value.0, bookings := t.bookings + [b]), b)
  {
    var r := PlaceLines(t, input, t.inventory, [], 0, input.rooms);
    assert FindHotel(t.hotels, input.hotelId).Some? && input.checkIn < input.checkOut;
    assert r.Ok?;
    var number := BookingNumber(now, suffix);
    assert !NumberTaken(t.bookings, number);
  }

  /**
   * The lines after `done` are placed exactly when each belongs to the hotel,
   * is active and, night by night, has room for everything booked so far of
   * its room type; the ledger then carries the whole demand.
   */
  lemma {:induction false} PlaceLinesLedger(t: Tables, input: CreateBookingInput, done: seq<BookingRoom>,
                                           details: seq<BookingDetail>, total: int, rooms: seq<BookingRoom>)
    requires NonNegativeLines(done + rooms)
    ensures var r := PlaceLines(t, input, AddDemand(t.inventory, done, input.checkIn, input.checkOut, 1), details, total, rooms);
            (r.Ok? <==> LinesUsable(t.roomTypes, rooms, input.hotelId)
                        && LinesFit(t.inventory, done + rooms, rooms, input.checkIn, input.checkOut))
            && (r.Ok? ==> r.value.0 == AddDemand(t.inventory, done + rooms, input.checkIn, input.checkOut, 1))
    decreases |rooms|
  {
    var l := t.inventory;
    if rooms == [] {
      assert done + rooms == done;
    } else {
      var x := rooms[0];
      var rest := rooms[1..];
      assert rooms == [x] + rest;
      assert done + rooms == done + [x] + rest;
      LinesFitCons(l, done, x, rest, input.checkIn, input.checkOut);
      LinesUsableCons(t.roomTypes, x, rest, input.hotelId);
      AllocateLineSpec(l, done, x, input.checkIn, input.checkOut);
      var w := AddDemand(l, done, input.checkIn, input.checkOut, 1);
      PlaceLineOutcome(t, input, w, x);
      if PlaceLine(t, input, w, x).Ok? {
        var d := PlaceLine(t, input, w, x).value.1;
        assert PlaceLines(t, input, w, details, total, rooms)
               == PlaceLines(t, input, AddDemand(l, done + [x], input.checkIn, input.checkOut, 1), details + [d], total + d.subtotal, rest);
        assert done + [x] + rest == (done + [x]) + rest;
        PlaceLinesLedger(t, input, done + [x], details + [d], total + d.subtotal, rest);
      } else {
        assert PlaceLines(t, input, w, details, total, rooms).Err?;
      }
    }
  }

  /** One line is placed exactly when its room type is usable and it fits on the working ledger. */
  lemma PlaceLineOutcome(t: Tables, input: CreateBookingInput, work: Ledger, room: BookingRoom)
    ensures PlaceLine(t, input, work, room).Ok? <==>
              RoomTypeUsable(t.roomTypes, room.roomTypeId, input.hotelId)
              && AllocateLine(work, room, input.checkIn, input.checkOut).Ok?
    ensures PlaceLine(t, input, work, room).Ok? ==>
              PlaceLine(t, input, work, room).value
              == (AllocateLine(work, room, input.checkIn, input.checkOut).value,
                  DetailFor(t.inventory, FindRoomTypeOfHotel(t.roomTypes, room.roomTypeId, input.hotelId).value,
                            room, input.checkIn, input.checkOut))
  {
  }

  /** The lines are usable exactly when the first one is and the rest are. */
  lemma LinesUsableCons(roomTypes: seq<RoomType>, x: BookingRoom, rest: seq<BookingRoom>, hotelId: int)
    ensures LinesUsable(roomTypes, [x] + rest, hotelId) <==>
              RoomTypeUsable(roomTypes, x.roomTypeId, hotelId) && LinesUsable(roomTypes, rest, hotelId)
  {
    var rooms := [x] + rest;
    if RoomTypeUsable(roomTypes, x.roomTypeId, hotelId) && LinesUsable(roomTypes, rest, hotelId) {
      forall i | 0 <= i < |rooms| ensures RoomTypeUsable(roomTypes, rooms[i].roomTypeId, hotelId) {
        if i > 0 {
          assert rooms[i] == rest[i - 1];
        }
      }
    }
    if LinesUsable(roomTypes, rooms, hotelId) {
      assert rooms[0] == x;
      forall i | 0 <= i < |rest| ensures RoomTypeUsable(roomTypes, rest[i].roomTypeId, hotelId) {
        assert rest[i] == rooms[i + 1];
      }
    }
  }

  /**
   * When the lines are placed, the details extend those before them, one per
   * line, each priced by DetailFor, and the total grows by their subtotals.
   */
  lemma {:induction false} PlaceLinesDetails(t: Tables, input: CreateBookingInput, work: Ledger,
                                            details: seq<BookingDetail>, total: int, rooms: seq<BookingRoom>)
    ensures var r := PlaceLines(t, input, work, details, total, rooms);
            r.Ok? ==>
              && |r.value.1| == |details| + |rooms|
              && r.value.1[..|details|] == details
              && (forall i :: 0 <= i < |rooms| ==>
                    RoomTypeUsable(t.roomTypes, rooms[i].roomTypeId, input.hotelId)
                    && r.value.1[|details| + i]
                       == DetailFor(t.inventory, FindRoomTypeOfHotel(t.roomTypes, rooms[i].roomTypeId, input.hotelId).value,
                                    rooms[i], input.checkIn, input.checkOut))
              && r.value.2 == total + TotalOf(r.value.1[|details|..])
    decreases |rooms|
  {
    var r := PlaceLines(t, input, work, details, total, rooms);
    if rooms == [] {
      if r.Ok? {
        assert r.value.1[|details|..] == [];
      }
    } else if r.Ok? {
      var x := rooms[0];
      var p := PlaceLine(t, input, work, x);
      var w := p.value.0;
      var d := p.value.1;
      PlaceLinesDetails(t, input, w, details + [d], total + d.subtotal, rooms[1..]);
      var ds := r.value.1;
      assert ds[..|details| + 1] == details + [d];
      assert ds[..|details|] == (details + [d])[..|details|];
      forall i | 0 <= i < |rooms|
        ensures RoomTypeUsable(t.roomTypes, rooms[i].roomTypeId, input.hotelId)
        ensures ds[|details| + i]
                == DetailFor(t.inventory, FindRoomTypeOfHotel(t.roomTypes, rooms[i].roomTypeId, input.hotelId).value,
                             rooms[i], input.checkIn, input.checkOut)
      {
        if i == 0 {
          assert ds[|details|] == (details + [d])[|details|];
        } else {
          assert rooms[i] == rooms[1..][i - 1];
          assert |details| + i == |details + [d]| + (i - 1);
        }
      }
      assert ds[|details|..][1..] == ds[|details| + 1..];
      assert ds[|details|..][0] == d;
    }
  }

  /**
   * CreateBooking succeeds exactly when the hotel exists, the stay is
   * ordered, every line is an active room type of that hotel, every night
   * has room for all the lines of each room type together, and the new
   * number is not taken.
   */
  lemma CreateBookingSucceedsIff(t: Tables, input: CreateBookingInput, now: int, suffix: int)
    requires IsDateTime(now) && 1000 <= suffix < 9999
    requires NonNegativeLines(input.rooms)
    ensures CreateBookingSpec(t, input, now, suffix).Ok? <==>
              && FindHotel(t.hotels, input.hotelId).Some?
              && input.checkIn < input.checkOut
              && LinesUsable(t.roomTypes, input.rooms, input.hotelId)
              && LinesFit(t.inventory, input.rooms, input.rooms, input.checkIn, input.checkOut)
              && !NumberTaken(t.bookings, BookingNumber(now, suffix))
  {
    AddDemandNone(t.inventory, input.checkIn, input.checkOut, 1);
    assert [] + input.rooms == input.rooms;
    PlaceLinesLedger(t, input, [], [], 0, input.rooms);
  }

  /** The hotel is checked first, then the order of the dates. */
  lemma CreateBookingChecksOrder(t: Tables, input: CreateBookingInput, now: int, suffix: int)
    requires IsDateTime(now) && 1000 <= suffix < 9999
    ensures FindHotel(t.hotels, input.hotelId).None? ==>
              CreateBookingSpec(t, input, now, suffix) == Err(HotelNotFound(input.hotelId))
    ensures FindHotel(t.hotels, input.hotelId).Some? && input.checkIn >= input.checkOut ==>
              CreateBookingSpec(t, input, now, suffix) == Err(StayNotOrdered)
  {
  }

  /**
   * What a successful CreateBooking stores: the hotels and room types as they
   * were, every night of every line reserved by its room count, and one new
   * booking, with an Id above every Id in use, appended.
   */
  lemma CreateBookingEffect(t: Tables, input: CreateBookingInput, now: int, suffix: int)
    requires IsDateTime(now) && 1000 <= suffix < 9999
    requires NonNegativeLines(input.rooms)
    requires CreateBookingSpec(t, input, now, suffix).Ok?
    ensures var (t1, b) := CreateBookingSpec(t, input, now, suffix).value;
            && t1.hotels == t.hotels && t1.roomTypes == t.roomTypes
            && t1.bookings == t.bookings + [b]
            && t1.inventory == AddDemand(t.inventory, input.rooms, input.checkIn, input.checkOut, 1)
            && (forall j :: 0 <= j < |t.bookings| ==> t.bookings[j].id < b.id)
  {
    CreateBookingUnfold(t, input, now, suffix);
    PlacedLedger(t, input);
  }

  /** Lines placed from the start leave the ledger with their whole demand added. */
  lemma PlacedLedger(t: Tables, input: CreateBookingInput)
    requires NonNegativeLines(input.rooms)
    requires PlaceLines(t, input, t.inventory, [], 0, input.rooms).Ok?
    ensures PlaceLines(t, input, t.inventory, [], 0, input.rooms).value.0
            == AddDemand(t.inventory, input.rooms, input.checkIn, input.checkOut, 1)
  {
    AddDemandNone(t.inventory, input.checkIn, input.checkOut, 1);
    assert [] + input.rooms == input.rooms;
    PlaceLinesLedger(t, input, [], [], 0, input.rooms);
  }

  /**
   * The booking a successful CreateBooking stores: "Confirmed", created now,
   * with the generated number, the caller's data, one detail per requested
   * line priced by DetailFor, and the sum of their subtotals as its total.
   */
  lemma CreateBookingRecord(t: Tables, input: CreateBookingInput, now: int, suffix: int)
    requires IsDateTime(now) && 1000 <= suffix < 9999
    requires CreateBookingSpec(t, input, now, suffix).Ok?
    ensures var b := CreateBookingSpec(t, input, now, suffix).value.1;
            && b.bookingNumber == BookingNumber(now, suffix)
            && b.status == StatusConfirmed && b.createdAt == now
            && b.hotelId == input.hotelId && b.checkIn == input.checkIn && b.checkOut == input.checkOut
            && b.customerName == input.customerName && b.customerEmail == input.customerEmail
            && b.customerPhone == input.customerPhone && b.numberOfGuests == input.numberOfGuests
            && b.notes == input.notes
            && LinesOf(b.details) == input.rooms
            && (forall j :: 0 <= j < |input.rooms| ==>
                  RoomTypeUsable(t.roomTypes, input.rooms[j].roomTypeId, input.hotelId) &&
                  b.details[j] == DetailFor(t.inventory,
                                            FindRoomTypeOfHotel(t.roomTypes, input.rooms[j].roomTypeId, input.hotelId).value,
                                            input.rooms[j], input.checkIn, input.checkOut))
            && b.totalAmount == TotalOf(b.details)
  {
    CreateBookingUnfold(t, input, now, suffix);
    PlacedDetails(t, input);
  }

  /** The details and total of lines placed from the start: one DetailFor per line, and their sum. */
  lemma PlacedDetails(t: Tables, input: CreateBookingInput)
    requires PlaceLines(t, input, t.inventory, [], 0, input.rooms).Ok?
    ensures var r := PlaceLines(t, input, t.inventory, [], 0, input.rooms).value;
            && LinesOf(r.1) == input.rooms
            && (forall j :: 0 <= j < |input.rooms| ==>
                  RoomTypeUsable(t.roomTypes, input.rooms[j].roomTypeId, input.hotelId) &&
                  r.1[j] == DetailFor(t.inventory,
                                      FindRoomTypeOfHotel(t.roomTypes, input.rooms[j].roomTypeId, input.hotelId).value,
                                      input.rooms[j], input.checkIn, input.checkOut))
            && r.2 == TotalOf(r.1)
  {
    var ds := PlaceLines(t, input, t.inventory, [], 0, input.rooms).value.1;
    PlaceLinesDetails(t, input, t.inventory, [], 0, input.rooms);
    assert ds[0..] == ds;
    forall j | 0 <= j < |input.rooms|
      ensures RoomTypeUsable(t.roomTypes, input.rooms[j].roomTypeId, input.hotelId)
      ensures ds[j] == DetailFor(t.inventory, FindRoomTypeOfHotel(t.roomTypes, input.rooms[j].roomTypeId, input.hotelId).value,
                                 input.rooms[j], input.checkIn, input.checkOut)
    {
      assert ds[0 + j] == ds[j];
    }
    var lines := LinesOf(ds);
    assert lines == input.rooms;
  }

  /** A successful CreateBooking keeps the tables valid: keys, foreign keys, ledger bounds and accounting. */
  lemma CreateBookingPreservesValid(t: Tables, input: CreateBookingInput, now: int, suffix: int)
    requires IsDateTime(now) && 1000 <= suffix < 9999
    requires ValidTables(t)
    requires input.Valid() && IsDay(input.checkIn) && IsDay(input.checkOut)
    requires CreateBookingSpec(t, input, now, suffix).Ok?
    ensures ValidTables(CreateBookingSpec(t, input, now, suffix).value.0)
  {
    CreateBookingUnfold(t, input, now, suffix);
    PlacedBookingKeepsValid(t, input, BookingNumber(now, suffix), now);
  }

  /** Appending the booking built from lines placed from the start, under an unused number, keeps the tables valid. */
  lemma PlacedBookingKeepsValid(t: Tables, input: CreateBookingInput, number: string, now: int)
    requires ValidTables(t)
    requires input.Valid() && IsDay(input.checkIn) && IsDay(input.checkOut)
    requires FindHotel(t.hotels, input.hotelId).Some? && !NumberTaken(t.bookings, number)
    requires PlaceLines(t, input, t.inventory, [], 0, input.rooms).Ok?
    ensures var p := PlaceLines(t, input, t.inventory, [], 0, input.rooms).value;
            ValidTables(t.(inventory := p.0, bookings := t.bookings + [NewBooking(t.bookings, input, number, now, p.1, p.2)]))
  {
    var rooms := input.rooms;
    assert NonNegativeLines(rooms);
    var p := PlaceLines(t, input, t.inventory, [], 0, rooms).value;
    var b := NewBooking(t.bookings, input, number, now, p.1, p.2);
    PlacedLedger(t, input);
    PlacedFits(t, input);
    PlacedDetailsLinked(t, input);
    AppendBookingKeepsValid(t, b);
  }

  /** Every detail of lines placed from the start names a stored room type and at least one room. */
  lemma PlacedDetailsLinked(t: Tables, input: CreateBookingInput)
    requires input.Valid()
    requires PlaceLines(t, input, t.inventory, [], 0, input.rooms).Ok?
    ensures var ds := PlaceLines(t, input, t.inventory, [], 0, input.rooms).value.1;
            && LinesOf(ds) == input.rooms
            && forall j :: 0 <= j < |ds| ==> FindRoomType(t.roomTypes, ds[j].roomTypeId).Some? && ds[j].numberOfRooms >= 1
  {
    var rooms := input.rooms;
    var ds := PlaceLines(t, input, t.inventory, [], 0, rooms).value.1;
    PlacedDetails(t, input);
    forall j | 0 <= j < |ds|
      ensures FindRoomType(t.roomTypes, ds[j].roomTypeId).Some? && ds[j].numberOfRooms >= 1
    {
      assert LineOf(ds[j]) == rooms[j];
      assert rooms[j].Valid();
      var rt := FindRoomTypeOfHotel(t.roomTypes, rooms[j].roomTypeId, input.hotelId).value;
      var n :| 0 <= n < |t.roomTypes| && t.roomTypes[n] == rt;
    }
  }

  /** Lines placed from the start are usable and fit, all of them together. */
  lemma PlacedFits(t: Tables, input: CreateBookingInput)
    requires NonNegativeLines(input.rooms)
    requires PlaceLines(t, input, t.inventory, [], 0, input.rooms).Ok?
    ensures LinesUsable(t.roomTypes, input.rooms, input.hotelId)
    ensures LinesFit(t.inventory, input.rooms, input.rooms, input.checkIn, input.checkOut)
  {
    AddDemandNone(t.inventory, input.checkIn, input.checkOut, 1);
    assert [] + input.rooms == input.rooms;
    PlaceLinesLedger(t, input, [], [], 0, input.rooms);
  }

  /**
   * Appending a booking that is not cancelled, with a fresh Id and number,
   * linked rows and lines that fit, and reserving its lines, keeps the
   * tables valid.
   */
  lemma AppendBookingKeepsValid(t: Tables, b: Booking)
    requires ValidTables(t)
    requires forall j :: 0 <= j < |t.bookings| ==> t.bookings[j].id < b.id
    requires !NumberTaken(t.bookings, b.bookingNumber)
    requires BookingLinked(b, t.hotels, t.roomTypes)
    requires forall j :: 0 <= j < |b.details| ==> b.details[j].numberOfRooms >= 1
    requires b.status != StatusCancelled
    requires LinesFit(t.inventory, LinesOf(b.details), LinesOf(b.details), b.checkIn, b.checkOut)
    ensures ValidTables(t.(inventory := AddDemand(t.inventory, LinesOf(b.details), b.checkIn, b.checkOut, 1),
                           bookings := t.bookings + [b]))
  {
    var rooms := LinesOf(b.details);
    var bs := t.bookings;
    var bs1 := bs + [b];
    var l := t.inventory;
    var l1 := AddDemand(l, rooms, b.checkIn, b.checkOut, 1);
    assert UniqueBookings(bs1) by {
      forall i, j | 0 <= i < j < |bs1|
        ensures bs1[i].id != bs1[j].id && bs1[i].bookingNumber != bs1[j].bookingNumber
      {
        assert bs1[i] == bs[i];
        if j < |bs| {
          assert bs1[j] == bs[j];
        }
      }
    }
    forall i | 0 <= i < |bs1| ensures BookingLinked(bs1[i], t.hotels, t.roomTypes) {
      if i < |bs| {
        assert bs1[i] == bs[i];
      }
    }
    assert DetailsPositive(bs1) by {
      forall i, j | 0 <= i < |bs1| && 0 <= j < |bs1[i].details|
        ensures bs1[i].details[j].numberOfRooms >= 1
      {
        if i < |bs| {
          assert bs1[i] == bs[i];
        }
      }
    }
    assert NonNegativeLines(rooms);
    AddDemandSound(l, rooms, b.checkIn, b.checkOut);
    assert Accounted(l1, bs1) by {
      forall k | Held(bs1, k) > 0
        ensures k in l1 && Held(bs1, k) <= l1[k].reservedRooms
      {
        AppendedHeld(t, b, k);
      }
    }
  }

  /** On one key, the appended booking's demand adds to both what is held and what is reserved. */
  lemma AppendedHeld(t: Tables, b: Booking, k: Key)
    requires ValidTables(t)
    requires forall j :: 0 <= j < |b.details| ==> b.details[j].numberOfRooms >= 1
    requires b.status != StatusCancelled
    requires LinesFit(t.inventory, LinesOf(b.details), LinesOf(b.details), b.checkIn, b.checkOut)
    requires Held(t.bookings + [b], k) > 0
    ensures k in t.inventory
    ensures Held(t.bookings + [b], k)
            <= t.inventory[k].reservedRooms + Demand(LinesOf(b.details), b.checkIn, b.checkOut, k)
  {
    var rooms := LinesOf(b.details);
    var bs := t.bookings;
    HeldAppend(bs, b, k);
    var dem := Demand(rooms, b.checkIn, b.checkOut, k);
    assert Holding(b, k) == dem;
    assert NonNegativeLines(rooms);
    RoomsNonNegative(rooms, k.0);
    if dem != 0 {
      FitDemandHasRecord(t.inventory, rooms, rooms, b.checkIn, b.checkOut, k);
    }
    if Held(bs, k) <= 0 {
      if bs != [] {
        HeldAtLeast(bs, 0, k);
      }
      assert Held(bs, k) == 0;
    }
  }

  // ---------------------------------------------------------------------
  // UpdateBookingStatus

  /** The edge on which the rooms are released: from any status but "Cancelled" to "Cancelled". */
  predicate CancelsNow(old_: string, new_: string)
  {
    old_ != StatusCancelled && new_ == StatusCancelled
  }

  /**
   * UpdateBookingStatusAsync as written: the status is always overwritten;
   * on the cancelling edge every night of every detail is decremented, each
   * record fetched with FirstAsync. A cancelled booking that gets any other
   * status keeps its rooms released.
   */
  function UpdateStatusSpec(t: Tables, id: int, status: string): Result<Tables, Error>
  {
    match BookingIndex(t.bookings, id)
    case None => Err(BookingNotFound(id))
    case Some(i) =>
      var b := t.bookings[i];
      var bookings := t.bookings[i := b.(status := status)];
      if CancelsNow(b.status, status) then
        match ReleaseLines(t.inventory, LinesOf(b.details), b.checkIn, b.checkOut)
        case Err(e) => Err(e)
        case Ok(l) => Ok(t.(inventory := l, bookings := bookings))
      else Ok(t.(bookings := bookings))
  }

  /**
   * The outcome of a status change: an unknown Id is BookingNotFound; else
   * only that booking's status changes, and the ledger loses exactly the
   * booking's demand on the cancelling edge and is untouched otherwise.
   */
  lemma UpdateStatusEffect(t: Tables, id: int, status: string)
    ensures BookingIndex(t.bookings, id).None? ==> UpdateStatusSpec(t, id, status) == Err(BookingNotFound(id))
    ensures BookingIndex(t.bookings, id).Some? ==>
              var i := BookingIndex(t.bookings, id).value;
              var b := t.bookings[i];
              var r := UpdateStatusSpec(t, id, status);
              && (r.Ok? <==> !CancelsNow(b.status, status) || Covered(t.inventory, LinesOf(b.details), b.checkIn, b.checkOut))
              && (r.Ok? ==>
                    && r.value.hotels == t.hotels && r.value.roomTypes == t.roomTypes
                    && r.value.bookings == t.bookings[i := b.(status := status)]
                    && r.value.inventory
                       == (if CancelsNow(b.status, status)
                           then AddDemand(t.inventory, LinesOf(b.details), b.checkIn, b.checkOut, -1)
                           else t.inventory))
  {
    if BookingIndex(t.bookings, id).Some? {
      var b := t.bookings[BookingIndex(t.bookings, id).value];
      ReleaseLinesSpec(t.inventory, LinesOf(b.details), b.checkIn, b.checkOut);
    }
  }

  /** In a valid database every night of every detail of a booking not cancelled has a record. */
  lemma HeldLinesCovered(t: Tables, i: int)
    requires Accounted(t.inventory, t.bookings) && DetailsPositive(t.bookings)
    requires 0 <= i < |t.bookings| && t.bookings[i].status != StatusCancelled
    ensures Covered(t.inventory, LinesOf(t.bookings[i].details), t.bookings[i].checkIn, t.bookings[i].checkOut)
  {
    var b := t.bookings[i];
    var lines := LinesOf(b.details);
    assert forall j :: 0 <= j < |lines| ==> lines[j].numberOfRooms >= 1 by {
      forall j | 0 <= j < |lines| ensures lines[j].numberOfRooms >= 1 {
        assert lines[j] == LineOf(b.details[j]);
      }
    }
    forall j, d | 0 <= j < |lines| && b.checkIn <= d < b.checkOut
      ensures (lines[j].roomTypeId, d) in t.inventory
    {
      var k := (lines[j].roomTypeId, d);
      RoomsAtLeastLine(lines, j);
      HeldAtLeast(t.bookings, i, k);
      assert Holding(b, k) == Rooms(lines, k.0) >= 1;
    }
  }

  /**
   * Any status change of a booking that is not a re-opening (from
   * "Cancelled" to another status) succeeds on a valid database and keeps it
   * valid: cancelling releases exactly what the booking held.
   */
  lemma UpdateStatusPreservesValid(t: Tables, id: int, status: string)
    requires ValidTables(t)
    requires BookingIndex(t.bookings, id).Some?
    requires !(t.bookings[BookingIndex(t.bookings, id).value].status == StatusCancelled && status != StatusCancelled)
    ensures UpdateStatusSpec(t, id, status).Ok?
    ensures ValidTables(UpdateStatusSpec(t, id, status).value)
  {
    var i := BookingIndex(t.bookings, id).value;
    var b := t.bookings[i];
    var b1 := b.(status := status);
    var lines := LinesOf(b.details);
    UpdateStatusEffect(t, id, status);
    if CancelsNow(b.status, status) {
      HeldLinesCovered(t, i);
      var l1 := AddDemand(t.inventory, lines, b.checkIn, b.checkOut, -1);
      assert UpdateStatusSpec(t, id, status) == Ok(t.(inventory := l1, bookings := t.bookings[i := b1]));
      ReplaceBookingKeepsValid(t, i, b1, -1);
    } else {
      AddDemandZero(t.inventory, lines, b.checkIn, b.checkOut);
      assert UpdateStatusSpec(t, id, status) == Ok(t.(bookings := t.bookings[i := b1]));
      ReplaceBookingKeepsValid(t, i, b1, 0);
    }
  }

  /**
   * Replacing booking i by the same booking with another status, and moving
   * its demand by sign (-1 on cancelling, +1 on re-opening, 0 otherwise) in
   * step with what it now holds, keeps the tables valid when the ledger can
   * take it.
   */
  lemma ReplaceBookingKeepsValid(t: Tables, i: int, b1: Booking, sign: int)
    requires ValidTables(t)
    requires 0 <= i < |t.bookings|
    requires b1 == t.bookings[i].(status := b1.status)
    requires sign == -1 ==> t.bookings[i].status != StatusCancelled && b1.status == StatusCancelled
    requires sign == 1 ==> t.bookings[i].status == StatusCancelled && b1.status != StatusCancelled
                           && LinesFit(t.inventory, LinesOf(b1.details), LinesOf(b1.details), b1.checkIn, b1.checkOut)
    requires sign == 0 ==> (t.bookings[i].status == StatusCancelled <==> b1.status == StatusCancelled)
    requires sign == -1 || sign == 0 || sign == 1
    ensures ValidTables(t.(inventory := AddDemand(t.inventory, LinesOf(b1.details), b1.checkIn, b1.checkOut, sign),
                           bookings := t.bookings[i := b1]))
  {
    var bs1 := t.bookings[i := b1];
    var l := t.inventory;
    var l1 := AddDemand(l, LinesOf(b1.details), b1.checkIn, b1.checkOut, sign);
    StatusChangeKeepsRows(t, i, b1, bs1);
    forall k ensures KeyKept(l1, bs1, k) {
      ReplaceBookingKey(t, i, b1, sign, k);
    }
    KeptEverywhere(l1, bs1);
  }

  /** Changing only the status of booking i keeps the booking rows unique, linked and positive. */
  lemma StatusChangeKeepsRows(t: Tables, i: int, b1: Booking, bs1: seq<Booking>)
    requires ValidTables(t)
    requires 0 <= i < |t.bookings|
    requires b1 == t.bookings[i].(status := b1.status)
    requires bs1 == t.bookings[i := b1]
    ensures UniqueBookings(bs1)
    ensures forall p :: 0 <= p < |bs1| ==> BookingLinked(bs1[p], t.hotels, t.roomTypes)
    ensures DetailsPositive(bs1)
  {
    var bs := t.bookings;
    assert UniqueBookings(bs1) by {
      forall p, q | 0 <= p < q < |bs1|
        ensures bs1[p].id != bs1[q].id && bs1[p].bookingNumber != bs1[q].bookingNumber
      {
        assert bs1[p].id == bs[p].id && bs1[p].bookingNumber == bs[p].bookingNumber;
        assert bs1[q].id == bs[q].id && bs1[q].bookingNumber == bs[q].bookingNumber;
      }
    }
    forall p | 0 <= p < |bs1| ensures BookingLinked(bs1[p], t.hotels, t.roomTypes) {
      assert BookingLinked(bs[p], t.hotels, t.roomTypes);
    }
    forall p, j | 0 <= p < |bs1| && 0 <= j < |bs1[p].details|
      ensures bs1[p].details[j].numberOfRooms >= 1
    {
      assert bs1[p].details == bs[p].details;
    }
  }

  /** On key k the record stays within bounds and covers what the bookings hold. */
  ghost predicate KeyKept(l: Ledger, bookings: seq<Booking>, k: Key)
  {
    && (k in l ==> l[k].Sound())
    && (Held(bookings, k) > 0 ==> k in l && Held(bookings, k) <= l[k].reservedRooms)
  }

  /** Every key kept is a sound ledger that accounts for the bookings. */
  lemma KeptEverywhere(l: Ledger, bookings: seq<Booking>)
    requires forall k :: KeyKept(l, bookings, k)
    ensures LedgerSound(l) && Accounted(l, bookings)
  {
    forall k | k in l ensures l[k].Sound() {
      assert KeyKept(l, bookings, k);
    }
    forall k | Held(bookings, k) > 0 ensures k in l && Held(bookings, k) <= l[k].reservedRooms {
      assert KeyKept(l, bookings, k);
    }
  }

  /** ReplaceBookingKeepsValid on one key. */
  lemma ReplaceBookingKey(t: Tables, i: int, b1: Booking, sign: int, k: Key)
    requires LedgerSound(t.inventory) && Accounted(t.inventory, t.bookings) && DetailsPositive(t.bookings)
    requires 0 <= i < |t.bookings|
    requires b1 == t.bookings[i].(status := b1.status)
    requires sign == -1 ==> t.bookings[i].status != StatusCancelled && b1.status == StatusCancelled
    requires sign == 1 ==> t.bookings[i].status == StatusCancelled && b1.status != StatusCancelled
                           && LinesFit(t.inventory, LinesOf(b1.details), LinesOf(b1.details), b1.checkIn, b1.checkOut)
    requires sign == 0 ==> (t.bookings[i].status == StatusCancelled <==> b1.status == StatusCancelled)
    requires sign == -1 || sign == 0 || sign == 1
    ensures KeyKept(AddDemand(t.inventory, LinesOf(b1.details), b1.checkIn, b1.checkOut, sign), t.bookings[i := b1], k)
  {
    if sign == -1 {
      CancelKey(t, i, b1, k);
    } else if sign == 1 {
      ReopenKey(t, i, b1, k);
    } else {
      KeepKey(t, i, b1, k);
    }
  }

  /** Cancelling booking i releases on k exactly what it held there. */
  lemma CancelKey(t: Tables, i: int, b1: Booking, k: Key)
    requires LedgerSound(t.inventory) && Accounted(t.inventory, t.bookings) && DetailsPositive(t.bookings)
    requires 0 <= i < |t.bookings|
    requires b1 == t.bookings[i].(status := b1.status)
    requires t.bookings[i].status != StatusCancelled && b1.status == StatusCancelled
    ensures KeyKept(AddDemand(t.inventory, LinesOf(b1.details), b1.checkIn, b1.checkOut, -1), t.bookings[i := b1], k)
  {
    var b := t.bookings[i];
    var l := t.inventory;
    var l1 := AddDemand(l, LinesOf(b1.details), b1.checkIn, b1.checkOut, -1);
    var dem := Demand(LinesOf(b.details), b.checkIn, b.checkOut, k);
    HeldStatusChange(t.bookings, i, b1, k);
    HeldAtLeast(t.bookings, i, k);
    assert LinesOf(b1.details) == LinesOf(b.details);
    if k in l {
      assert l1[k].reservedRooms == l[k].reservedRooms - dem;
      assert l[k].Sound();
    }
  }

  /** Re-opening booking i takes on k what it holds there, which the ledger has room for. */
  lemma ReopenKey(t: Tables, i: int, b1: Booking, k: Key)
    requires LedgerSound(t.inventory) && Accounted(t.inventory, t.bookings) && DetailsPositive(t.bookings)
    requires 0 <= i < |t.bookings|
    requires b1 == t.bookings[i].(status := b1.status)
    requires t.bookings[i].status == StatusCancelled && b1.status != StatusCancelled
    requires LinesFit(t.inventory, LinesOf(b1.details), LinesOf(b1.details), b1.checkIn, b1.checkOut)
    ensures KeyKept(AddDemand(t.inventory, LinesOf(b1.details), b1.checkIn, b1.checkOut, 1), t.bookings[i := b1], k)
  {
    var b := t.bookings[i];
    var lines := LinesOf(b.details);
    var l := t.inventory;
    var l1 := AddDemand(l, lines, b.checkIn, b.checkOut, 1);
    var dem := Demand(lines, b.checkIn, b.checkOut, k);
    HeldStatusChange(t.bookings, i, b1, k);
    assert LinesOf(b1.details) == lines;
    if dem != 0 {
      DemandHasLine(lines, b.checkIn, b.checkOut, k);
      var j :| 0 <= j < |lines| && lines[j].roomTypeId == k.0;
      assert FitsNight(l, lines[j].roomTypeId, k.1, Rooms(lines, lines[j].roomTypeId));
      assert k in l && l[k].reservedRooms + dem <= l[k].totalRooms;
    }
    if k in l {
      assert l1[k].reservedRooms == l[k].reservedRooms + dem;
      assert l[k].Sound();
    }
  }

  /** A status change that does not cross "Cancelled" changes nothing on k. */
  lemma KeepKey(t: Tables, i: int, b1: Booking, k: Key)
    requires LedgerSound(t.inventory) && Accounted(t.inventory, t.bookings) && DetailsPositive(t.bookings)
    requires 0 <= i < |t.bookings|
    requires b1 == t.bookings[i].(status := b1.status)
    requires t.bookings[i].status == StatusCancelled <==> b1.status == StatusCancelled
    ensures KeyKept(AddDemand(t.inventory, LinesOf(b1.details), b1.checkIn, b1.checkOut, 0), t.bookings[i := b1], k)
  {
    var l := t.inventory;
    var l1 := AddDemand(l, LinesOf(b1.details), b1.checkIn, b1.checkOut, 0);
    HeldStatusChange(t.bookings, i, b1, k);
    if k in l {
      assert l1[k] == l[k];
    }
  }

  /** A status change moves what the bookings hold on k by the booking's demand, when it crosses "Cancelled". */
  lemma HeldStatusChange(bs: seq<Booking>, i: int, b1: Booking, k: Key)
    requires DetailsPositive(bs)
    requires 0 <= i < |bs|
    requires b1 == bs[i].(status := b1.status)
    ensures var dem := Demand(LinesOf(bs[i].details), bs[i].checkIn, bs[i].checkOut, k);
            && dem >= 0
            && Held(bs[i := b1], k) == Held(bs, k) - (if bs[i].status != StatusCancelled then dem else 0)
                                                   + (if b1.status != StatusCancelled then dem else 0)
  {
    var b := bs[i];
    var lines := LinesOf(b.details);
    assert NonNegativeLines(lines) by {
      forall j | 0 <= j < |lines| ensures lines[j].numberOfRooms >= 0 {
        assert lines[j] == LineOf(b.details[j]);
      }
    }
    RoomsNonNegative(lines, k.0);
    HeldUpdate(bs, i, b1, k);
    assert LinesOf(b1.details) == lines;
  }

  /** Cancelling a booking straight after creating it gives every reserved room back. */
  lemma CreateThenCancelRestores(t: Tables, input: CreateBookingInput, now: int, suffix: int)
    requires IsDateTime(now) && 1000 <= suffix < 9999
    requires NonNegativeLines(input.rooms)
    requires CreateBookingSpec(t, input, now, suffix).Ok?
    ensures var (t1, b) := CreateBookingSpec(t, input, now, suffix).value;
            UpdateStatusSpec(t1, b.id, StatusCancelled)
            == Ok(t.(bookings := t.bookings + [b.(status := StatusCancelled)]))
  {
    CreateBookingEffect(t, input, now, suffix);
    CreateBookingRecord(t, input, now, suffix);
    CreatedLinesCovered(t, input, now, suffix);
    var b := CreateBookingSpec(t, input, now, suffix).value.1;
    CancelAppended(t, b);
  }

  /** The nights of a created booking all have records once it is stored. */
  lemma CreatedLinesCovered(t: Tables, input: CreateBookingInput, now: int, suffix: int)
    requires IsDateTime(now) && 1000 <= suffix < 9999
    requires NonNegativeLines(input.rooms)
    requires CreateBookingSpec(t, input, now, suffix).Ok?
    ensures var (t1, b) := CreateBookingSpec(t, input, now, suffix).value;
            Covered(t1.inventory, input.rooms, input.checkIn, input.checkOut)
  {
    CreateBookingSucceedsIff(t, input, now, suffix);
    CreateBookingEffect(t, input, now, suffix);
    FitCovered(t.inventory, input.rooms, input.checkIn, input.checkOut);
  }

  /** Cancelling a confirmed booking just appended, with its demand added and its nights present, takes the demand off again. */
  lemma CancelAppended(t: Tables, b: Booking)
    requires b.status == StatusConfirmed
    requires forall j :: 0 <= j < |t.bookings| ==> t.bookings[j].id < b.id
    requires var l1 := AddDemand(t.inventory, LinesOf(b.details), b.checkIn, b.checkOut, 1);
             Covered(l1, LinesOf(b.details), b.checkIn, b.checkOut)
    ensures UpdateStatusSpec(t.(inventory := AddDemand(t.inventory, LinesOf(b.details), b.checkIn, b.checkOut, 1),
                                bookings := t.bookings + [b]), b.id, StatusCancelled)
            == Ok(t.(bookings := t.bookings + [b.(status := StatusCancelled)]))
  {
    var lines := LinesOf(b.details);
    var t1 := t.(inventory := AddDemand(t.inventory, lines, b.checkIn, b.checkOut, 1), bookings := t.bookings + [b]);
    var n := |t.bookings|;
    assert t1.bookings[n] == b;
    assert BookingIndex(t1.bookings, b.id) == Some(n);
    UpdateStatusEffect(t1, b.id, StatusCancelled);
    AddDemandCancels(t.inventory, lines, b.checkIn, b.checkOut);
    assert (t.bookings + [b])[n := b.(status := StatusCancelled)] == t.bookings + [b.(status := StatusCancelled)];
  }

  // ---------------------------------------------------------------------
  // Re-opening a cancelled booking

  /** The edge the service leaves alone: from "Cancelled" to any other status. */
  predicate ReopensNow(old_: string, new_: string)
  {
    old_ == StatusCancelled && new_ != StatusCancelled
  }

  /** The update re-opens the stored booking with that Id. */
  predicate Reopens(t: Tables, id: int, status: string)
  {
    var i := BookingIndex(t.bookings, id);
    i.Some? && ReopensNow(t.bookings[i.value].status, status)
  }

  /** A small database: one hotel, one room type with ten rooms on day 0, one confirmed booking of one room that night. */
  function ReopenExample(): Tables
  {
    Tables(
      [Hotel(1, "H", "", "C", "X", 3, true)],
      [RoomType(1, 1, "R", 2, 100 * Cents, true)],
      map[(1, 0) := InventoryRecord(10, 1, 100 * Cents, true)],
      [Booking(1, "B", 1, "N", "", "", 0, 1, 1, 100 * Cents, StatusConfirmed, "", 0,
               [BookingDetail(1, 1, 100 * Cents, 100 * Cents)])])
  }

  lemma ReopenExampleValid()
    ensures ValidTables(ReopenExample())
  {
    var t := ReopenExample();
    var b := t.bookings[0];
    assert LinesOf(b.details) == [BookingRoom(1, 1)];
    forall k | Held(t.bookings, k) > 0
      ensures k in t.inventory && Held(t.bookings, k) <= t.inventory[k].reservedRooms
    {
      assert Held(t.bookings, k) == Holding(b, k);
      if k.0 != 1 {
        RoomsOther([BookingRoom(1, 1)], k.0);
      }
      assert k == (1, 0);
      assert Rooms([BookingRoom(1, 1)], 1) == 1;
    }
  }

  /**
   * As written, cancelling, confirming again and cancelling once more
   * releases the same room twice: starting from a valid database the
   * record ends with ReservedRooms -1.
   */
  lemma ReopenThenCancelReleasesTwice()
    ensures ValidTables(ReopenExample())
    ensures var t1 := UpdateStatusSpec(ReopenExample(), 1, StatusCancelled);
            && t1.Ok?
            && var t2 := UpdateStatusSpec(t1.value, 1, StatusConfirmed);
               && t2.Ok?
               && (1, 0) in t2.value.inventory && t2.value.inventory[(1, 0)].reservedRooms == 0
               && !Accounted(t2.value.inventory, t2.value.bookings)
               && var t3 := UpdateStatusSpec(t2.value, 1, StatusCancelled);
                  && t3.Ok?
                  && (1, 0) in t3.value.inventory && t3.value.inventory[(1, 0)].reservedRooms == -1
                  && !LedgerSound(t3.value.inventory)
  {
    ReopenExampleValid();
    var t0 := ReopenExample();
    var lines := [BookingRoom(1, 1)];
    assert LinesOf(t0.bookings[0].details) == lines;
    assert Rooms(lines, 1) == 1;
    var t1 := UpdateStatusSpec(t0, 1, StatusCancelled);
    UpdateStatusEffect(t0, 1, StatusCancelled);
    assert Covered(t0.inventory, lines, 0, 1);
    assert t1.value.inventory[(1, 0)].reservedRooms == 0;
    var t2 := UpdateStatusSpec(t1.value, 1, StatusConfirmed);
    UpdateStatusEffect(t1.value, 1, StatusConfirmed);
    assert t2.value.bookings[0].status == StatusConfirmed;
    assert LinesOf(t2.value.bookings[0].details) == lines;
    assert Held(t2.value.bookings, (1, 0)) == 1;
    var t3 := UpdateStatusSpec(t2.value, 1, StatusCancelled);
    UpdateStatusEffect(t2.value, 1, StatusCancelled);
    assert Covered(t2.value.inventory, lines, 0, 1);
    assert t3.value.inventory[(1, 0)].reservedRooms == -1;
    assert !t3.value.inventory[(1, 0)].Sound();
  }

  /**
   * The status change with re-opening handled: a cancelled booking that
   * gets another status checks and reserves its rooms again, exactly as
   * CreateBooking does, or fails as CreateBooking would.
   */
  function UpdateStatusReserving(t: Tables, id: int, status: string): Result<Tables, Error>
  {
    match BookingIndex(t.bookings, id)
    case None => Err(BookingNotFound(id))
    case Some(i) =>
      var b := t.bookings[i];
      if ReopensNow(b.status, status) then
        match ReserveLines(t.inventory, LinesOf(b.details), b.checkIn, b.checkOut)
        case Err(e) => Err(e)
        case Ok(l) => Ok(t.(inventory := l, bookings := t.bookings[i := b.(status := status)]))
      else UpdateStatusSpec(t, id, status)
  }

  /**
   * With re-opening handled, every status change of a valid database either
   * fails, leaving it as it was, or keeps it valid; it fails only when the
   * booking is unknown or re-opened without room for it.
   */
  lemma UpdateStatusReservingPreservesValid(t: Tables, id: int, status: string)
    requires ValidTables(t)
    ensures UpdateStatusReserving(t, id, status).Ok? ==> ValidTables(UpdateStatusReserving(t, id, status).value)
    ensures BookingIndex(t.bookings, id).Some? ==>
              var b := t.bookings[BookingIndex(t.bookings, id).value];
              (UpdateStatusReserving(t, id, status).Ok?
               <==> !ReopensNow(b.status, status) || LinesFit(t.inventory, LinesOf(b.details), LinesOf(b.details), b.checkIn, b.checkOut))
  {
    if BookingIndex(t.bookings, id).Some? {
      var i := BookingIndex(t.bookings, id).value;
      var b := t.bookings[i];
      var lines := LinesOf(b.details);
      if ReopensNow(b.status, status) {
        assert NonNegativeLines(lines) by {
          forall j | 0 <= j < |lines| ensures lines[j].numberOfRooms >= 0 {
            assert lines[j] == LineOf(b.details[j]);
          }
        }
        AddDemandNone(t.inventory, b.checkIn, b.checkOut, 1);
        assert [] + lines == lines;
        ReserveLinesAfter(t.inventory, [], lines, b.checkIn, b.checkOut);
        if UpdateStatusReserving(t, id, status).Ok? {
          ReplaceBookingKeepsValid(t, i, b.(status := status), 1);
        }
      } else {
        UpdateStatusPreservesValid(t, id, status);
      }
    }
  }

  /** The example with its booking cancelled and its room released. */
  function CancelledExample(): Tables
  {
    var t := ReopenExample();
    Tables(t.hotels, t.roomTypes, map[(1, 0) := InventoryRecord(10, 0, 100 * Cents, true)],
           [t.bookings[0].(status := StatusCancelled)])
  }

  /** Cancelling the example's booking releases its one room. */
  lemma ExampleCancelled()
    ensures UpdateStatusReserving(ReopenExample(), 1, StatusCancelled) == Ok(CancelledExample())
  {
    var t0 := ReopenExample();
    var lines := [BookingRoom(1, 1)];
    assert LinesOf(t0.bookings[0].details) == lines;
    assert Rooms(lines, 1) == 1;
    UpdateStatusEffect(t0, 1, StatusCancelled);
    var l1 := AddDemand(t0.inventory, lines, 0, 1, -1);
    assert l1[(1, 0)].reservedRooms == 0;
    assert l1 == CancelledExample().inventory;
    assert BookingIndex(t0.bookings, 1) == Some(0);
    assert t0.bookings[0 := t0.bookings[0].(status := StatusCancelled)] == CancelledExample().bookings;
  }

  /** Confirming the cancelled booking again reserves its room again: the example comes back exactly. */
  lemma ExampleReopened()
    ensures UpdateStatusReserving(CancelledExample(), 1, StatusConfirmed) == Ok(ReopenExample())
  {
    var t1 := CancelledExample();
    var lines := [BookingRoom(1, 1)];
    assert LinesOf(t1.bookings[0].details) == lines;
    assert Rooms(lines, 1) == 1;
    assert LinesFit(t1.inventory, lines, lines, 0, 1) by {
      assert FitsNight(t1.inventory, 1, 0, 1);
    }
    AddDemandNone(t1.inventory, 0, 1, 1);
    assert [] + lines == lines;
    ReserveLinesAfter(t1.inventory, [], lines, 0, 1);
    var l2 := AddDemand(t1.inventory, lines, 0, 1, 1);
    assert l2[(1, 0)].reservedRooms == 1;
    assert l2 == ReopenExample().inventory;
    assert BookingIndex(t1.bookings, 1) == Some(0);
    assert t1.bookings[0 := t1.bookings[0].(status := StatusConfirmed)] == ReopenExample().bookings;
  }

  /**
   * On the same example the corrected status change goes round: cancelling
   * and confirming again gives back the database it started from, and every
   * stage is valid.
   */
  lemma ReopenThenCancelCorrected()
    ensures var t1 := UpdateStatusReserving(ReopenExample(), 1, StatusCancelled);
            && t1.Ok?
            && (1, 0) in t1.value.inventory && t1.value.inventory[(1, 0)].reservedRooms == 0
            && ValidTables(t1.value)
            && var t2 := UpdateStatusReserving(t1.value, 1, StatusConfirmed);
               && t2 == Ok(ReopenExample())
               && (1, 0) in t2.value.inventory && t2.value.inventory[(1, 0)].reservedRooms == 1
               && ValidTables(t2.value)
               && UpdateStatusReserving(t2.value, 1, StatusCancelled) == t1
  {
    ReopenExampleValid();
    ExampleCancelled();
    ExampleReopened();
    UpdateStatusReservingPreservesValid(ReopenExample(), 1, StatusCancelled);
  }

  // ---------------------------------------------------------------------
  // The service object

  /** BookingService over its DbContext; `now` and the random draw are the clock's and Random's values. */
  class BookingService {
    const db: AppDbContext

    constructor (db: AppDbContext)
      ensures this.db == db
    {
      this.db := db;
    }

    /**
     * CreateBookingAsync: checks the hotel and the dates, then for each line
     * looks up the room type, checks every night, prices the line and
     * increments every night on the working copy, and commits once.
     */
    method CreateBooking(input: CreateBookingInput, now: int, suffix: int) returns (r: Result<Booking, Error>)
      requires IsDateTime(now) && 1000 <= suffix < 9999
      modifies db
      ensures match CreateBookingSpec(old(db.State()), input, now, suffix)
              case Ok((t1, b)) => r == Ok(b) && db.State() == t1
              case Err(e) => r == Err(e) && db.State() == old(db.State())
      ensures old(db.Valid()) && input.Valid() && IsDay(input.checkIn) && IsDay(input.checkOut) ==> db.Valid()
    {
      var t := db.State();
      if FindHotel(t.hotels, input.hotelId).None? {
        return Err(HotelNotFound(input.hotelId));
      }
      if input.checkIn >= input.checkOut {
        return Err(StayNotOrdered);
      }
      var work := t.inventory;
      var details: seq<BookingDetail> := [];
      var total := 0;
      var i := 0;
      while i < |input.rooms|
        invariant 0 <= i <= |input.rooms|
        invariant PlaceLines(t, input, t.inventory, [], 0, input.rooms) == PlaceLines(t, input, work, details, total, input.rooms[i..])
        invariant unchanged(db)
      {
        var room := input.rooms[i];
        assert input.rooms[i..][0] == room && input.rooms[i..][1..] == input.rooms[i + 1..];
        var placed := PlaceRoom(t, input, work, room);
        if placed.Err? {
          assert PlaceLines(t, input, work, details, total, input.rooms[i..]) == Err(placed.error);
          return Err(placed.error);
        }
        var detail: BookingDetail;
        work, detail := placed.value.0, placed.value.1;
        details := details + [detail];
        total := total + detail.subtotal;
        i := i + 1;
      }
      var number := BookingNumber(now, suffix);
      if NumberTaken(t.bookings, number) {
        return Err(DuplicateBookingNumber(number));
      }
      var b := NewBooking(t.bookings, input, number, now, details, total);
      if db.Valid() && input.Valid() && IsDay(input.checkIn) && IsDay(input.checkOut) {
        CreateBookingPreservesValid(t, input, now, suffix);
      }
      db.SaveChanges(t.(inventory := work, bookings := t.bookings + [b]));
      return Ok(b);
    }

    /**
     * One pass of CreateBookingAsync's foreach on the working ledger: the
     * room-type lookup, the availability loop, the price of the stay and
     * the increment loop.
     */
    method PlaceRoom(t: Tables, input: CreateBookingInput, work: Ledger, room: BookingRoom)
      returns (r: Result<(Ledger, BookingDetail), Error>)
      ensures r == PlaceLine(t, input, work, room)
    {
      var found := FindRoomTypeOfHotel(t.roomTypes, room.roomTypeId, input.hotelId);
      if found.None? {
        return Err(RoomTypeNotInHotel(room.roomTypeId, input.hotelId));
      }
      var rt := found.value;
      if !rt.isActive {
        return Err(RoomTypeInactive(rt.id));
      }
      // the availability loop
      var d := input.checkIn;
      while d < input.checkOut
        invariant CheckNights(work, room.roomTypeId, input.checkIn, input.checkOut, room.numberOfRooms)
                  == CheckNights(work, room.roomTypeId, d, input.checkOut, room.numberOfRooms)
        decreases input.checkOut - d
      {
        var key := (room.roomTypeId, d);
        if key !in work || !work[key].isAvailable {
          return Err(NoAvailability(room.roomTypeId, d));
        }
        if work[key].AvailableRooms() < room.numberOfRooms {
          return Err(NotEnoughRooms(room.roomTypeId, d));
        }
        d := d + 1;
      }
      // the price of the stay, from the stored first night
      var detail := DetailFor(t.inventory, rt, room, input.checkIn, input.checkOut);
      // the increment loop
      var w := work;
      d := input.checkIn;
      while d < input.checkOut
        invariant ShiftNights(work, room.roomTypeId, input.checkIn, input.checkOut, room.numberOfRooms)
                  == ShiftNights(w, room.roomTypeId, d, input.checkOut, room.numberOfRooms)
        decreases input.checkOut - d
      {
        var key := (room.roomTypeId, d);
        if key !in w {
          return Err(InventoryMissing(room.roomTypeId, d));
        }
        w := w[key := w[key].(reservedRooms := w[key].reservedRooms + room.numberOfRooms)];
        d := d + 1;
      }
      return Ok((w, detail));
    }

    /**
     * UpdateBookingStatusAsync: overwrites the status and, on the cancelling
     * edge, decrements every night of every detail on the working copy, then
     * commits once.
     */
    method UpdateBookingStatus(id: int, status: string) returns (r: Result<(), Error>)
      modifies db
      ensures match UpdateStatusSpec(old(db.State()), id, status)
              case Ok(t1) => r == Ok(()) && db.State() == t1
              case Err(e) => r == Err(e) && db.State() == old(db.State())
      ensures old(db.Valid()) && !Reopens(old(db.State()), id, status) ==> db.Valid()
    {
      var t := db.State();
      var found := BookingIndex(t.bookings, id);
      if found.None? {
        return Err(BookingNotFound(id));
      }
      var b := t.bookings[found.value];
      var bookings := t.bookings[found.value := b.(status := status)];
      var work := t.inventory;
      if CancelsNow(b.status, status) {
        var lines := LinesOf(b.details);
        var j := 0;
        while j < |b.details|
          invariant 0 <= j <= |b.details|
          invariant ReleaseLines(t.inventory, lines, b.checkIn, b.checkOut) == ReleaseLines(work, lines[j..], b.checkIn, b.checkOut)
        {
          var detail := b.details[j];
          assert lines[j..][0] == LineOf(detail) && lines[j..][1..] == lines[j + 1..];
          var w0 := work;
          var d := b.checkIn;
          while d < b.checkOut
            invariant ShiftNights(w0, detail.roomTypeId, b.checkIn, b.checkOut, -detail.numberOfRooms)
                      == ShiftNights(work, detail.roomTypeId, d, b.checkOut, -detail.numberOfRooms)
            decreases b.checkOut - d
          {
            var key := (detail.roomTypeId, d);
            if key !in work {
              return Err(InventoryMissing(detail.roomTypeId, d));
            }
            work := work[key := work[key].(reservedRooms := work[key].reservedRooms - detail.numberOfRooms)];
            d := d + 1;
          }
          j := j + 1;
        }
      }
      if db.Valid() && !Reopens(t, id, status) {
        UpdateStatusPreservesValid(t, id, status);
      }
      db.SaveChanges(t.(inventory := work, bookings := bookings));
      return Ok(());
    }
  }
}
