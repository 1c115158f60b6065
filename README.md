# Altairis room-inventory ledger and hotel services, in Dafny

Altairis is a hotel back office. Hotels own room types. Each room type has
one inventory record per date, and the `(RoomTypeId, Date)` pair is unique.
A record holds `TotalRooms`, `ReservedRooms`, a `Price` and an `IsAvailable`
flag. Bookings reserve rooms night by night over the stay
`[CheckInDate, CheckOutDate)`. Cancelling a booking gives those rooms back.

This project models the application services that read and change these
tables:

- **BookingService**: create a booking, change its status, list bookings, and
  compute the dashboard figures (occupancy rate, top hotels).
- **InventoryService**: edit one record, bulk upsert a date range, and query
  the records and the occupancy series.
- **RoomTypeService**: create a room type and open 366 days of inventory for
  it, edit or soft-delete it, and list a hotel's room types with today's free
  rooms.
- **HotelService**: the searched, filtered and paged hotel list with its
  counts, the soft delete of a hotel, and the list of countries.

How the model is built:

- **The database.** `Context.AppDbContext` is a class whose fields are the
  four tables: hotels, room types, bookings, and the inventory ledger.
  Hotels, room types and bookings are sequences. The ledger is a map from
  `(RoomTypeId, Date)` to the record.
- **Service calls.** Each call works on a copy. Its only write is
  `SaveChanges`, the commit.
- **Operations.** Every operation is a specification function over the
  tables, returning the new tables or the error the C# code throws. A
  method of the service class does the same steps with the source's loops.
  The method's postcondition ties it to the function, and lemmas state what
  the function promises.
- **The database invariant.** `Context.ValidTables` is the invariant the
  services keep. It has these parts:
  - unique keys;
  - the foreign keys;
  - `0 <= ReservedRooms <= TotalRooms` on every record;
  - every room held by a booking that is not cancelled is covered by
    `ReservedRooms`.

  The context's `Valid()` is this invariant on its tables. Each
  state-changing service method ensures that a valid context stays valid.
  Creating a booking and the bulk update also need a request that passes
  its DTO validation, with dates in range. The status update is the exception: re-opening a cancelled booking can
  break the invariant (see Findings).

Representations:

- A `DateOnly` is its day number: 0 is 0001-01-01 and 3652058 is
  9999-12-31.
- A `DateTime` is whole seconds since 0001-01-01T00:00:00.
- Money (`decimal(18,2)`) is an integer number of cents.
- Occupancy percentages are exact reals, since decimal division is taken as
  exact. They are rounded to two decimals with `Math.Round`'s
  to-even midpoint rule.
- String ordering is ordinal, character by character (`Text.LexLe`).
- The clock (`DateTime.UtcNow`) is the parameter `now`. The random draw of
  the booking number is the parameter `suffix`.

## Model

| member | source | states |
|---|---|---|
| Models.NewHotel | backend/Domain/Models/Hotel.cs:38-41 | a new hotel is active with 3 stars, and is well formed when its required texts have the annotated lengths |
| Models.InventoryRecord.AvailableRooms | backend/Domain/Models/Inventory.cs:30-31 | free rooms plus reserved rooms are the total |
| Dto.InventoryView.AvailableRooms | backend/Application/DTO/InventoryDto.cs:13 | the DTO's free rooms plus its reserved rooms are its total |
| Dto.InventoryView.OccupancyPercentage | backend/Application/DTO/InventoryDto.cs:16 | 0 without rooms; otherwise the value times the total is reserved × 100; within [0, 100] when 0 ≤ reserved ≤ total |
| Dto.ViewOfAgrees | backend/Application/DTO/InventoryDto.cs:5-17 | the DTO of a record shows the record's own free rooms, and a percentage in [0, 100] for a sound record |
| Dto.Nights | backend/Application/DTO/BookingDto.cs:14 | check-in plus nights is check-out; there are nights exactly when check-in precedes check-out |
| Rates.Rate | backend/Application/Services/BookingService.cs:251 | 0 without rooms; otherwise the value times the total is reserved × 100; within [0, 100] when 0 ≤ reserved ≤ total |
| Rates.RateMonotone | backend/Application/Services/BookingService.cs:251 | more reserved rooms out of the same total never give a lower rate |
| Rates.Round2 | backend/Application/Services/InventoryService.cs:139 | the result has two decimals, lies within 0.005 of its input, and stays in [0, 100] when the input does |
| Rates.Round2Exact | backend/Application/Services/InventoryService.cs:139 | a value that already has two decimals is returned unchanged |
| Text.ToLower | backend/Application/Services/HotelService.cs:27-32 | lowering keeps the length and lowers each character |
| Text.ToLowerIdempotent | backend/Application/Services/HotelService.cs:27-32 | lowering twice is lowering once |
| Text.LexLeTotal | backend/Application/Services/HotelService.cs:48 | any two names are comparable in the ordering |
| Text.LexLeTransitive | backend/Application/Services/HotelService.cs:48 | the ordering of names is transitive |
| Text.LexLeAntisymmetric | backend/Application/Services/HotelService.cs:138 | two names ordered both ways are equal |
| Text.DigitsRoundTrip | backend/Application/Services/BookingService.cs:282-283 | the four digits of the random part read back to the number |
| Calendar.DateOf | backend/Application/Services/BookingService.cs:213 | the date of a DateTime is a DateOnly, and the instant lies within that day |
| Calendar.AddDays | backend/Application/Services/BookingService.cs:125 | AddDays succeeds exactly when the result is still a calendar date, and then it adds the days |
| Calendar.IsoDateRoundTrip | backend/Application/Services/InventoryService.cs:138 | a "yyyy-MM-dd" key parses back to its date |
| Calendar.IsoDateInjective | backend/Application/Services/InventoryService.cs:137-138 | two different dates never share a "yyyy-MM-dd" key |
| Calendar.FormatCompact | backend/Application/Services/BookingService.cs:281 | "yyyyMMddHHmmss" is 14 digits |
| Calendar.CompactTimestampRoundTrip | backend/Application/Services/BookingService.cs:281 | the "yyyyMMddHHmmss" text of an instant parses back to the instant |
| Calendar.MonthBeforeDistance | backend/Application/Services/BookingService.cs:256 | AddMonths(-1) succeeds exactly from day 31 (0001-02-01) on, and goes back between 28 and 31 days |
| Seqs.Filter | backend/Application/Services/BookingService.cs:27-45 | Where keeps exactly the elements that satisfy the predicate, and no more of them than there are |
| Seqs.FilterCounts | backend/Application/Services/BookingService.cs:27-45 | Where keeps every satisfying element as many times as it occurs, and no other |
| Seqs.FilterAppend | backend/Application/Services/BookingService.cs:27-45 | Where keeps the order: filtering a concatenation concatenates the filtered parts |
| Seqs.Count | backend/Application/Services/BookingService.cs:47 | Count is the number of elements Where keeps, and is 0 exactly when no element satisfies the predicate |
| Seqs.Skip | backend/Application/Services/BookingService.cs:51 | Skip drops the first n elements, and drops none for a non-positive n |
| Seqs.Take | backend/Application/Services/BookingService.cs:52 | Take keeps a prefix of n elements, and keeps none for a non-positive n |
| Seqs.PageContents | backend/Application/Services/BookingService.cs:51-52 | a page has at most pageSize rows, and its i-th row is row (page − 1) × pageSize + i |
| Seqs.PageOfSorted | backend/Application/Services/BookingService.cs:50-52 | a page of a sorted sequence is sorted |
| Seqs.PageMembers | backend/Application/Services/BookingService.cs:51-52 | every row on a page is a row of the sequence |
| Seqs.SortBy | backend/Application/Services/BookingService.cs:50 | OrderBy returns a sorted permutation of its input |
| Seqs.TakeSubMultiset | backend/Application/Services/BookingService.cs:275 | Take keeps part of the sequence, counting repetitions |
| Seqs.SumNonNegative | backend/Application/Services/BookingService.cs:226 | a sum of non-negative amounts is non-negative |
| Seqs.Distinct | backend/Application/Services/HotelService.cs:137 | Distinct keeps every value, once |
| Seqs.PermutationKeepsNoDuplicates | backend/Application/Services/HotelService.cs:137-138 | ordering distinct values keeps them distinct |
| Context.FindHotel | backend/Application/Services/BookingService.cs:94-96 | a hotel is found exactly when a row has the Id, and it is that row |
| Context.FindRoomType | backend/Application/Services/InventoryService.cs:75-77 | a room type is found exactly when a row has the Id |
| Context.FindRoomTypeOfHotel | backend/Application/Services/BookingService.cs:115-119 | a room type is found exactly when a row has both the Id and the hotel |
| Context.NextId | backend/Domain/Models/Booking.cs:7 | the identity value handed out next exceeds every Id in use |
| Context.EmptyValid | backend/Infra/Data/AppDbContext.cs:18-101 | the empty database satisfies the invariant |
| Context.AppDbContext.constructor | backend/Infra/Data/AppDbContext.cs:8-10 | a new context holds empty, valid tables |
| Context.AppDbContext.SaveChanges | backend/Application/Services/BookingService.cs:174 | the commit makes the working copy the stored state |
| RoomLedger.LinesOf | backend/Application/Services/BookingService.cs:195 | a booking's details give one line per detail |
| RoomLedger.ShiftNightsSpec | backend/Application/Services/BookingService.cs:160-167 | the nightly increment succeeds exactly when every night has a record, and then moves exactly those nights |
| RoomLedger.CheckNightsSpec | backend/Application/Services/BookingService.cs:125-136 | the availability loop passes exactly when every night has a record that is for sale with enough free rooms |
| RoomLedger.AllocateLineSpec | backend/Application/Services/BookingService.cs:125-167 | a line books on top of earlier lines exactly when each night has room for both |
| RoomLedger.LinesFitCons | backend/Application/Services/BookingService.cs:112-168 | booking lines one at a time fits exactly when their whole demand fits |
| RoomLedger.ReserveLinesAfter | backend/Application/Services/BookingService.cs:112-168 | the remaining lines book exactly when they fit, and then their whole demand is added |
| RoomLedger.AddDemandSound | backend/Application/Services/BookingService.cs:133-135 | booking lines that fit keeps every record within 0 ≤ reserved ≤ total |
| RoomLedger.AddDemandCancels | backend/Application/Services/BookingService.cs:202 | adding a demand and then taking it away gives the ledger back |
| RoomLedger.ReleaseLinesSpec | backend/Application/Services/BookingService.cs:195-205 | the release loops succeed exactly when every night of every detail has a record, and remove exactly the booking's demand |
| BookingServices.BookingNumber | backend/Application/Services/BookingService.cs:279-284 | a booking number is "ALT" and 18 digits |
| BookingServices.BookingNumberRoundTrip | backend/Application/Services/BookingService.cs:281-283 | a booking number parses back to its instant and its random part |
| BookingServices.BookingNumberInjective | backend/Application/Services/BookingService.cs:281-283 | two numbers are equal only for the same second and the same random draw |
| BookingServices.DetailFor | backend/Application/Services/BookingService.cs:139-154 | the price is the check-in night's stored price when positive, else the base price; the subtotal is rooms × price × nights |
| BookingServices.DetailForNonNegative | backend/Application/Services/BookingService.cs:146 | non-negative prices over a real stay give a non-negative subtotal |
| BookingServices.CreateBookingSucceedsIff | backend/Application/Services/BookingService.cs:91-174 | creation succeeds exactly when the hotel exists, the stay is ordered, every line is an active room type of that hotel, all lines fit every night, and the number is free |
| BookingServices.CreateBookingChecksOrder | backend/Application/Services/BookingService.cs:94-100 | an unknown hotel is reported before disordered dates |
| BookingServices.CreateBookingEffect | backend/Application/Services/BookingService.cs:160-174 | success reserves every night of every line by its room count, appends one booking under a fresh Id, and changes nothing else |
| BookingServices.CreateBookingRecord | backend/Application/Services/BookingService.cs:102-171 | the stored booking is "Confirmed", made now, with the generated number, one priced detail per line, and their sum as total |
| BookingServices.PlacedDetails | backend/Application/Services/BookingService.cs:148-157 | the details are one DetailFor per line, and the total is their sum |
| BookingServices.PlaceLinesLedger | backend/Application/Services/BookingService.cs:112-168 | the foreach places the lines exactly when they are usable and fit, and then adds their demand |
| BookingServices.PlaceLinesDetails | backend/Application/Services/BookingService.cs:139-157 | each placed line adds its detail and its subtotal |
| BookingServices.CreateBookingPreservesValid | backend/Application/Services/BookingService.cs:91-177 | a successful creation keeps the database invariant |
| BookingServices.UpdateStatusEffect | backend/Application/Services/BookingService.cs:179-209 | an unknown Id fails; otherwise only the status changes, and the ledger loses exactly the booking's demand on the cancelling edge |
| BookingServices.UpdateStatusPreservesValid | backend/Application/Services/BookingService.cs:188-208 | every status change other than re-opening a cancelled booking keeps the invariant |
| BookingServices.CreateThenCancelRestores | backend/Application/Services/BookingService.cs:160-205 | cancelling right after creating gives every reserved room back |
| BookingServices.ReopenThenCancelReleasesTwice | backend/Application/Services/BookingService.cs:193 | as written: cancel, confirm, cancel takes a valid ledger to ReservedRooms −1 |
| BookingServices.UpdateStatusReservingPreservesValid | backend/Application/Services/BookingService.cs:193-205 | corrected: every status change either fails with nothing changed or keeps the invariant |
| BookingServices.ReopenThenCancelCorrected | backend/Application/Services/BookingService.cs:193-205 | corrected: cancelling releases the room, confirming again reserves it and gives back the very database it started from, every stage valid |
| BookingServices.BookingService.CreateBooking | backend/Application/Services/BookingService.cs:91-177 | the loops store exactly what the creation function says, or throw its error with nothing stored; a valid database stays valid for a valid request with in-range dates |
| BookingServices.BookingService.PlaceRoom | backend/Application/Services/BookingService.cs:112-168 | one pass of the foreach computes exactly the line placement: the same error, or the incremented working ledger and the priced detail |
| BookingServices.BookingService.UpdateBookingStatus | backend/Application/Services/BookingService.cs:179-209 | the release loops store exactly what the status function says, or throw its error with nothing stored; a valid database stays valid unless the update re-opens a cancelled booking |
| BookingQueries.KeptNewestFirst | backend/Application/Services/BookingService.cs:27-50 | the kept bookings are sorted newest first and are a permutation of the filtered list |
| BookingQueries.GetBookingsTotal | backend/Application/Services/BookingService.cs:47 | TotalItems is the number of bookings the filters keep, and is 0 exactly when they keep none |
| BookingQueries.GetBookingsKept | backend/Application/Services/BookingService.cs:27-53 | every listed booking is stored and kept by the filters |
| BookingQueries.GetBookingsPage | backend/Application/Services/BookingService.cs:49-53 | a page has at most pageSize bookings, newest first, at the offset of the page |
| BookingQueries.DayTotalsSound | backend/Application/Services/BookingService.cs:243-249 | over a sound ledger, a day's reserved rooms lie between 0 and its total |
| BookingQueries.OccupancyRateSpec | backend/Application/Services/BookingService.cs:241-252 | the rate is reserved × 100 / total, 0 without rooms, and within [0, 100] over a sound ledger |
| BookingQueries.TopRows | backend/Application/Services/BookingService.cs:259-273 | as many rows as active hotels, each the projection of an active hotel |
| BookingQueries.TopRowsAt | backend/Application/Services/BookingService.cs:259-273 | the i-th row is the projection of the i-th active hotel, so each active hotel has its row and no other hotel has one |
| BookingQueries.RankedSpec | backend/Application/Services/BookingService.cs:274-275 | at most count rows, by descending revenue, taken from the given rows without repeating any; no row left out earns more than a row kept |
| BookingQueries.TopHotelsSpec | backend/Application/Services/BookingService.cs:254-277 | available from 0001-02-01 on; the active hotels with most revenue since a month ago, at most count of them, none repeated |
| BookingQueries.DashboardSpec | backend/Application/Services/BookingService.cs:211-239 | the counts are the numbers of active hotels, of confirmed bookings whose stay includes today and of today's bookings; today's revenue is the booking-by-booking sum over today's bookings that are not cancelled, non-negative when no total is negative; the rate is today's occupancy, in [0, 100] over a sound ledger; the top hotels are the month's top five |
| BookingQueries.EarningSumIsRevenue | backend/Application/Services/BookingService.cs:224-226 | summing the totals of the bookings Where keeps equals adding, booking by booking, each total that earns today |
| BookingQueries.RevenueToday | backend/Application/Services/BookingService.cs:224-226 | today's revenue is the booking-by-booking sum; when no total is negative it is non-negative and at least the total of each booking it counts |
| BookingQueries.SumAtLeastMember | backend/Application/Services/BookingService.cs:224-226 | a sum of non-negative totals is at least each of them |
| InventoryServices.Edited | backend/Application/Services/InventoryService.cs:63-65 | the edit sets total, price and availability, and keeps the reserved rooms |
| InventoryServices.UpdateInventorySpec | backend/Application/Services/InventoryService.cs:51-71 | an unknown record, or a total below the reserved rooms, fails; otherwise only that record changes, and the ledger stays sound |
| InventoryServices.UpdateInventoryPreservesValid | backend/Application/Services/InventoryService.cs:57-68 | a successful edit keeps the database invariant |
| InventoryServices.BulkFromSpec | backend/Application/Services/InventoryService.cs:87-115 | the date loop succeeds exactly when no existing record of the range has more rooms reserved than the new total and the loop's AddDays stays in the calendar; it then upserts exactly the range |
| InventoryServices.BulkUpdateEffect | backend/Application/Services/InventoryService.cs:73-118 | an unknown room type fails; otherwise every date of the range gets the new values, a new record starts with nothing reserved, and the other records are unchanged |
| InventoryServices.BulkUpdatePreservesValid | backend/Application/Services/InventoryService.cs:93-113 | a successful bulk update with annotated-range input keeps the database invariant |
| InventoryServices.RecordsFrom | backend/Application/Services/InventoryService.cs:31-35 | exactly the room type's records of the date range, by strictly ascending date |
| InventoryServices.HotelDayViews | backend/Application/Services/InventoryService.cs:42-43 | exactly the records of that date whose room type belongs to the hotel |
| InventoryServices.ByRoomTypeNameOrders | backend/Application/Services/InventoryService.cs:45 | ordering by room-type name is a total preorder |
| InventoryServices.GetHotelInventory | backend/Application/Services/InventoryService.cs:40-49 | the hotel's records of the date, reordered by room-type name, with no view repeated when room-type Ids are unique |
| InventoryServices.HotelDayViewsDistinct | backend/Application/Services/InventoryService.cs:42-43 | with unique room-type Ids, no room type of the hotel gets two views of the date |
| InventoryServices.HotelRoomTypes | backend/Application/Services/InventoryService.cs:123 | exactly the room types of the hotel |
| InventoryServices.HasRecordOn | backend/Application/Services/InventoryService.cs:126 | a date forms a group exactly when one of the room types has a record on it |
| InventoryServices.DayDictionary | backend/Application/Services/InventoryService.cs:137-139 | ToDictionary has exactly one key per grouped day, with that day's value |
| InventoryServices.IsoKeysDistinct | backend/Application/Services/InventoryService.cs:138 | two days of the range never share a key |
| InventoryServices.OccupancyStatsDays | backend/Application/Services/InventoryService.cs:122-138 | the series has one "yyyy-MM-dd" entry per day of the range on which a hotel room type has a record, and no other |
| InventoryServices.OccupancyStatsValues | backend/Application/Services/InventoryService.cs:130-139 | each entry is 0 without rooms, within 0.005 of the day's exact rate, and in [0, 100] over a sound ledger |
| InventoryServices.DayOccupancyBounds | backend/Application/Services/InventoryService.cs:132-133 | a day's rounded occupancy is 0 without rooms and within 0.005 of the exact rate |
| InventoryServices.InventoryService.UpdateInventory | backend/Application/Services/InventoryService.cs:51-71 | stores exactly what the edit function says and returns the record's view, or throws its error with nothing stored; a valid database stays valid |
| InventoryServices.InventoryService.BulkUpdateInventory | backend/Application/Services/InventoryService.cs:73-118 | the date loop stores exactly what the bulk function says, or throws its error with nothing stored; a valid database stays valid for valid data and in-range dates |
| RoomTypeServices.DefaultRecord | backend/Application/Services/RoomTypeService.cs:78-87 | the default record has 10 free rooms, is sound, and lies within the annotated ranges |
| RoomTypeServices.Horizon | backend/Application/Services/RoomTypeService.cs:76 | one key per date of the range, in date order |
| RoomTypeServices.InitializeInventoryEffect | backend/Application/Services/RoomTypeService.cs:70-92 | succeeds exactly when today + 366 is a date; then adds one default record for each of the 366 dates and keeps every other record |
| RoomTypeServices.NewRoomType | backend/Application/Services/RoomTypeService.cs:57-61 | the new room type is active, in the input's hotel, with an Id above every Id in use |
| RoomTypeServices.CreateRoomTypeEffect | backend/Application/Services/RoomTypeService.cs:51-68 | an unknown hotel fails with nothing stored; otherwise the room type is stored, and its inventory too exactly when the horizon fits the calendar |
| RoomTypeServices.FindRoomTypeAppended | backend/Application/Services/RoomTypeService.cs:61-62 | after the insert, an Id is found exactly when it was found before or is the new one |
| RoomTypeServices.CreateRoomTypePreservesValid | backend/Application/Services/RoomTypeService.cs:51-68 | creation keeps the database invariant, also when the inventory step fails |
| RoomTypeServices.Updated | backend/Application/Services/RoomTypeService.cs:100 | the mapping overwrites name, hotel, capacity, price and the active flag, and keeps the Id |
| RoomTypeServices.UpdateRoomTypeSpec | backend/Application/Services/RoomTypeService.cs:94-104 | an unknown Id fails; a hotel that does not exist fails; otherwise only that room type is rewritten |
| RoomTypeServices.UpdateRoomTypePreservesValid | backend/Application/Services/RoomTypeService.cs:94-104 | a successful update keeps the database invariant |
| RoomTypeServices.DeleteRoomTypeSpec | backend/Application/Services/RoomTypeService.cs:106-117 | false with nothing changed for an unknown Id; otherwise only that room type's active flag is cleared |
| RoomTypeServices.DeleteRoomTypeIdempotent | backend/Application/Services/RoomTypeService.cs:106-117 | deleting twice is deleting once |
| RoomTypeServices.DeleteRoomTypePreservesValid | backend/Application/Services/RoomTypeService.cs:111-115 | a soft delete keeps the database invariant |
| RoomTypeServices.ActiveRoomTypes | backend/Application/Services/RoomTypeService.cs:23-24 | exactly the hotel's active room types |
| RoomTypeServices.AvailableToday | backend/Application/Services/RoomTypeService.cs:34 | today's record's total minus reserved, 0 without a record, and non-negative over a sound ledger |
| RoomTypeServices.RoomTypeService.GetRoomTypesByHotel | backend/Application/Services/RoomTypeService.cs:21-38 | one entry per active room type of the hotel, with the rooms free today |
| RoomTypeServices.RoomTypeService.CreateRoomType | backend/Application/Services/RoomTypeService.cs:51-68 | the two commits store exactly what the creation function says; a valid database stays valid |
| RoomTypeServices.RoomTypeService.InitializeInventory | backend/Application/Services/RoomTypeService.cs:70-92 | the date loop stores exactly what the initialisation function says, or throws its error with nothing stored |
| RoomTypeServices.RoomTypeService.UpdateRoomType | backend/Application/Services/RoomTypeService.cs:94-104 | stores exactly what the update function says, or its error with nothing stored; a valid database stays valid |
| RoomTypeServices.RoomTypeService.DeleteRoomType | backend/Application/Services/RoomTypeService.cs:106-117 | stores exactly what the delete function says, and the other tables are unchanged; a valid database stays valid |
| HotelServices.ByNameOrders | backend/Application/Services/HotelService.cs:48 | ordering hotels by name is a total preorder |
| HotelServices.KeptByName | backend/Application/Services/HotelService.cs:25-48 | the kept hotels sorted by name, a permutation of the filtered list |
| HotelServices.HotelsPageTotal | backend/Application/Services/HotelService.cs:45 | TotalItems is the number of kept hotels, 0 exactly when no hotel is kept |
| HotelServices.NoFilterKeepsAll | backend/Application/Services/HotelService.cs:25-43 | a blank search, a blank country and no activeOnly keep every hotel |
| HotelServices.HotelsPageKept | backend/Application/Services/HotelService.cs:25-52 | every listed hotel is stored and kept by the search and the filters |
| HotelServices.HotelsPageOrder | backend/Application/Services/HotelService.cs:47-52 | a page has at most pageSize hotels, by name, at the offset of the page |
| HotelServices.HotelCounts | backend/Application/Services/HotelService.cs:60-69 | RoomTypesCount is the number of the hotel's active room types and ActiveBookingsCount the number of its current bookings, each at most the table size; ActiveBookingsCount is 0 exactly when no booking of the hotel is current |
| HotelServices.RoomTypesCountIsListed | backend/Application/Services/HotelService.cs:60 | RoomTypesCount is the length of the hotel's room-type list, 0 exactly when none is active |
| HotelServices.RoomTypesCountAfterDelete | backend/Application/Services/HotelService.cs:60 | soft-deleting an active room type of the hotel lowers the count by one, and any other delete leaves it |
| HotelServices.DeleteHotelSpec | backend/Application/Services/HotelService.cs:119-130 | false with nothing changed for an unknown Id; otherwise only that hotel's active flag is cleared |
| HotelServices.DeleteHotelIdempotent | backend/Application/Services/HotelService.cs:119-130 | deleting twice is deleting once |
| HotelServices.DeleteHotelPreservesValid | backend/Application/Services/HotelService.cs:124-128 | a soft delete keeps the database invariant |
| HotelServices.DeletedHotelLeavesActiveList | backend/Application/Services/HotelService.cs:40-43 | after the delete, the activeOnly list no longer holds the hotel |
| HotelServices.CountriesOf | backend/Application/Services/HotelService.cs:136 | exactly the countries of the given hotels |
| HotelServices.GetCountries | backend/Application/Services/HotelService.cs:132-140 | exactly the countries of active hotels, ascending and each once |
| HotelServices.CountriesStrictlyAscending | backend/Application/Services/HotelService.cs:137-138 | no listed country is ordered at or before an earlier one |
| HotelServices.HotelService.GetHotels | backend/Application/Services/HotelService.cs:21-81 | the page of the query, with each hotel's counts filled in by the loop |
| HotelServices.HotelService.CountPerHotel | backend/Application/Services/HotelService.cs:56-71 | the foreach fills in, for every hotel of the page in order, its active room-type count and its current-booking count |
| HotelServices.HotelService.DeleteHotel | backend/Application/Services/HotelService.cs:119-130 | stores exactly what the delete function says, and the other tables are unchanged; a valid database stays valid |

## Left out

- Timestamps. `UpdatedAt` and the `CreatedAt` of hotels and room types are
  not modelled. They are written but never read by the services. The
  `CreatedAt` of bookings is modelled.
- `Description`, address, postal code, phone and e-mail fields are not
  modelled. They are carried along but no service reads them. Neither is
  `HotelName`, which AutoMapper copies into the DTOs.
- Read-only lookups are not modelled, because they only fetch one row:
  `GetBookingAsync`, `GetRoomTypeAsync` and `GetHotelAsync`. The
  `GetBookingAsync` call at the end of `CreateBookingAsync` is one of them;
  the model returns the stored booking instead.
- `CreateHotelAsync` and `UpdateHotelAsync` are plain mappings without
  checks and are not modelled.
- Controllers are not modelled, and neither is the DTO validation that
  ASP.NET applies before a service runs. Annotated ranges appear as
  `WellFormed`/`Valid` predicates. Lemmas require them where the invariant
  needs them.
- String ordering is ordinal. A database collation may order names
  differently.
- String equality in the database queries is ordinal too. SQL Server's
  default collation is case-insensitive, and it applies to the queries that
  run in the database: the status filter (BookingService.cs:34), the country
  filter (HotelService.cs:37), the "Confirmed" and "Cancelled" tests of the
  dashboard and of the top hotels (BookingService.cs:220, 225, 267, 270),
  and `Distinct` on countries (HotelService.cs:137). The status test when a
  booking is cancelled (BookingService.cs:193) runs in memory and is ordinal
  in the source as well. SQL Server's `=` and `DISTINCT` also ignore
  trailing spaces. So the model differs from the deployed system on letter
  case and trailing spaces:
  - A booking whose status is "cancelled" keeps its rooms in both, yet the
    database leaves it out of today's revenue while `BookingQueries.EarnsOn`
    counts it.
  - Statuses with a trailing space are accepted, since the status DTO only
    bounds their length to 20 (BookingDto.cs:81-83). The database counts a
    "Confirmed " booking as an active one (BookingService.cs:220), while
    `BookingQueries.ActiveOn` does not. It leaves a "Cancelled " booking out
    of today's revenue and of the top hotels (BookingService.cs:225, 267,
    270), while `BookingQueries.EarnsOn` and `CountsSince` count it.
  - The database lists "France" and "FRANCE" once, and treats "France " and
    "France" as one country in the country filter and in `Distinct`
    (HotelService.cs:37, 137). `HotelServices.GetCountries` lists each
    spelling separately.
- Seqs.Offset: `(page - 1) * pageSize` is a 32-bit `int` product in the
  source (BookingService.cs:51, HotelService.cs:49) and wraps around for
  large pages; the model computes it unbounded, so a page far past the end
  is empty in the model where the source may skip a wrapped, negative count.
- Lowercasing covers ASCII letters only. Culture rules are not modelled.
- `DateTime.UtcNow` is read once per call (the parameter `now`). The source
  reads it again at each use.
- Paging: `Skip` and `Take` follow LINQ-to-objects semantics, so a negative
  offset skips nothing. The database's rejection of a negative OFFSET is not
  modelled.
- Concurrency is not modelled. Two requests racing on the same record are
  out of scope, and so are the database's transaction isolation and its
  row locking.
- The database's uniqueness constraints are not modelled as run-time
  rejections. They are kept as part of the invariant and proved to hold:
  the unique `(RoomTypeId, Date)` index (AppDbContext.cs:69) and the unique
  `BookingNumber` index (AppDbContext.cs:78). The one exception is a
  repeated booking number, which is modelled as an error.
- Cascade and restrict deletes (AppDbContext.cs:34-42, 55-63, 89-92) are not
  modelled. No service hard-deletes a row.
- The inventory's surrogate `Id` is identified with its unique
  `(RoomTypeId, Date)` key. `UpdateInventoryAsync` is therefore addressed
  by that key.
- `decimal` overflow is not modelled. Neither is its 28-digit precision:
  percentages are exact reals.
- BookingQueries.DayTotals: it sums a day's records through the room
  types, one record per room type. This equals the source's sum over all
  records of that date as long as every record's room type exists, which the
  foreign key guarantees.
- BookingServices.BookingService.UpdateBookingStatus: the method models the
  code as written, re-opening included. The corrected behaviour is the
  separate function `UpdateStatusReserving` (see Findings).
- The generated booking number's random part lies in [1000, 9998], because
  `Random.Next(1000, 9999)` excludes its upper bound.

## Findings

| source | as written | input that shows it | evidently intended | confidence | as-written member | corrected member |
|---|---|---|---|---|---|---|
| backend/Application/Services/BookingService.cs:193 | rooms are released whenever the status goes from anything other than "Cancelled" to "Cancelled", and nothing is reserved again when a cancelled booking gets another status | one confirmed booking of one room on a 10-room night; set it to "Cancelled", then "Confirmed", then "Cancelled": ReservedRooms goes 1, 0, 0, −1 | re-opening a cancelled booking checks availability and reserves its rooms again (or fails), so every status sequence keeps 0 ≤ ReservedRooms ≤ TotalRooms | high (not executed) | BookingServices.ReopenThenCancelReleasesTwice | BookingServices.UpdateStatusReservingPreservesValid |
