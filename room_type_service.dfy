/**
 * RoomTypeService: creating a room type (which also opens its inventory for
 * today and the next 365 days), editing and soft-deleting it, and listing a
 * hotel's active room types with the rooms still free today.
 */
module RoomTypeServices {
  import opened Wrappers
  import opened Seqs
  import opened Calendar
  import opened Models
  import opened Dto
  import opened Context

  // ---------------------------------------------------------------------
  // InitializeInventoryAsync

  /** The days the new inventory covers after today: AddDays(365). */
  const HorizonDays: int := 365

  /** The record every initialised date gets: 10 rooms, none reserved, price 100, open for sale. */
  function DefaultRecord(): (r: InventoryRecord)
    ensures r.Sound() && r.WellFormed()
    ensures r.AvailableRooms() == 10
  {
    InventoryRecord(10, 0, 100 * Cents, true)
  }

  /** The keys of room type rt for the dates lo, lo + 1, ..., hi. */
  function Horizon(rt: int, lo: int, hi: int): (keys: seq<Key>)
    ensures |keys| == if lo <= hi then hi - lo + 1 else 0
    ensures forall i :: 0 <= i < |keys| ==> keys[i] == (rt, lo + i)
    ensures forall k :: k in keys ==> k.0 == rt && lo <= k.1 <= hi
  {
    if lo <= hi then seq(hi - lo + 1, i => (rt, lo + i)) else []
  }

  /** AddRangeAsync of the default record on every key. */
  function AddRange(l: Ledger, keys: seq<Key>): Ledger
  {
    l + map k | k in keys :: DefaultRecord()
  }

  /**
   * InitializeInventoryAsync(roomTypeId) on day today: the end date is
   * today.AddDays(365), and the date loop's AddDays(1) after that end date
   * must also stay within the calendar; the records are added at the end.
   */
  function InitializeInventorySpec(l: Ledger, rt: int, today: int): Result<Ledger, Error>
  {
    match AddDays(today, HorizonDays)
    case None => Err(DateOutOfRange(today))
    case Some(end) =>
      if AddDays(end, 1).None? then Err(DateOutOfRange(end))
      else Ok(AddRange(l, Horizon(rt, today, end)))
  }

  /**
   * For a DateOnly today, initialisation succeeds exactly when today + 366
   * is still a calendar date; it then adds exactly one default record for
   * each of the 366 dates today .. today + 365 and keeps every other record.
   */
  lemma InitializeInventoryEffect(l: Ledger, rt: int, today: int)
    requires IsDay(today)
    ensures InitializeInventorySpec(l, rt, today).Ok? <==> today + HorizonDays + 1 <= MaxDay
    ensures |Horizon(rt, today, today + HorizonDays)| == 366
    ensures InitializeInventorySpec(l, rt, today).Ok? ==>
              var l1 := InitializeInventorySpec(l, rt, today).value;
              && (forall k :: k in l1 <==> k in l || (k.0 == rt && today <= k.1 <= today + HorizonDays))
              && (forall d :: today <= d <= today + HorizonDays ==> l1[(rt, d)] == DefaultRecord())
              && (forall k :: k in l && !(k.0 == rt && today <= k.1 <= today + HorizonDays) ==> l1[k] == l[k])
  {
    if InitializeInventorySpec(l, rt, today).Ok? {
      var keys := Horizon(rt, today, today + HorizonDays);
      var l1 := InitializeInventorySpec(l, rt, today).value;
      forall k: Key | k.0 == rt && today <= k.1 <= today + HorizonDays ensures k in keys {
        assert keys[k.1 - today] == k;
      }
    }
  }

  /** When the horizon fits the calendar, initialisation adds the default records on its keys. */
  lemma InitializeInventoryOk(l: Ledger, rt: int, today: int)
    requires IsDay(today) && today + HorizonDays + 1 <= MaxDay
    ensures InitializeInventorySpec(l, rt, today) == Ok(AddRange(l, Horizon(rt, today, today + HorizonDays)))
  {
    assert AddDays(today, HorizonDays) == Some(today + HorizonDays);
  }

  // ---------------------------------------------------------------------
  // CreateRoomTypeAsync

  /** The room type the mapping builds from the input, under the next identity value; it starts active. */
  function NewRoomType(roomTypes: seq<RoomType>, input: RoomTypeInput): (rt: RoomType)
    ensures rt.isActive && rt.hotelId == input.hotelId
    ensures forall i :: 0 <= i < |roomTypes| ==> roomTypes[i].id < rt.id
  {
    var ids := RoomTypeIds(roomTypes);
    RoomType(NextId(ids), input.hotelId, input.name, input.capacity, input.basePrice, true)
  }

  /**
   * CreateRoomTypeAsync at instant now. The room type is saved first, on
   * its own; then its inventory is initialised and saved. So a failure of
   * the initialisation leaves the new room type stored without inventory:
   * the result pairs the tables after the call with its outcome.
   */
  function CreateRoomTypeSpec(t: Tables, input: RoomTypeInput, now: int): (Tables, Result<RoomType, Error>)
  {
    if FindHotel(t.hotels, input.hotelId).None? then (t, Err(HotelNotFound(input.hotelId)))
    else
      var rt := NewRoomType(t.roomTypes, input);
      var t1 := t.(roomTypes := t.roomTypes + [rt]);
      match InitializeInventorySpec(t1.inventory, rt.id, DateOf(now))
      case Err(e) => (t1, Err(e))
      case Ok(l1) => (t1.(inventory := l1), Ok(rt))
  }

  /**
   * An unknown hotel is refused with nothing stored. Otherwise the new
   * room type, active and with an Id no other room type has, is appended
   * whatever follows; the call succeeds exactly when the horizon fits the
   * calendar, and then its 366 default records are the only records added.
   */
  lemma CreateRoomTypeEffect(t: Tables, input: RoomTypeInput, now: int)
    requires IsDateTime(now)
    ensures var (t1, r) := CreateRoomTypeSpec(t, input, now);
            && (FindHotel(t.hotels, input.hotelId).None? <==> r == Err(HotelNotFound(input.hotelId)))
            && (FindHotel(t.hotels, input.hotelId).None? ==> t1 == t)
            && (FindHotel(t.hotels, input.hotelId).Some? ==>
                  var rt := NewRoomType(t.roomTypes, input);
                  && t1.roomTypes == t.roomTypes + [rt]
                  && t1.hotels == t.hotels && t1.bookings == t.bookings
                  && (r.Ok? <==> DateOf(now) + HorizonDays + 1 <= MaxDay)
                  && (r.Ok? ==> r.value == rt
                                && t1.inventory == AddRange(t.inventory, Horizon(rt.id, DateOf(now), DateOf(now) + HorizonDays)))
                  && (r.Err? ==> t1.inventory == t.inventory))
  {
    if FindHotel(t.hotels, input.hotelId).Some? {
      InitializeInventoryEffect(t.inventory, NewRoomType(t.roomTypes, input).id, DateOf(now));
    }
  }

  /** A room type whose Id no stored room type has is the only one found under that Id in the appended table. */
  lemma FindRoomTypeAppended(roomTypes: seq<RoomType>, rt: RoomType, id: int)
    ensures FindRoomType(roomTypes + [rt], id).Some? <==> FindRoomType(roomTypes, id).Some? || rt.id == id
  {
    var s := roomTypes + [rt];
    if FindRoomType(roomTypes, id).Some? {
      var i :| 0 <= i < |roomTypes| && roomTypes[i].id == id;
      assert s[i].id == id;
    } else if rt.id == id {
      assert s[|roomTypes|].id == id;
    } else {
      forall i | 0 <= i < |s| ensures s[i].id != id {
        if i < |roomTypes| {
          assert s[i] == roomTypes[i];
        }
      }
    }
  }

  /**
   * Creating a room type keeps a valid database valid, whether or not the
   * initialisation succeeds: the new Id is fresh, its hotel exists, and its
   * records are new keys with nothing reserved.
   */
  lemma CreateRoomTypePreservesValid(t: Tables, input: RoomTypeInput, now: int)
    requires ValidTables(t)
    requires IsDateTime(now)
    ensures ValidTables(CreateRoomTypeSpec(t, input, now).0)
  {
    CreateRoomTypeStages(t, input, now);
    if FindHotel(t.hotels, input.hotelId).Some? {
      var rt := NewRoomType(t.roomTypes, input);
      var t1 := t.(roomTypes := t.roomTypes + [rt]);
      AppendRoomTypeKeepsValid(t, rt);
      var today := DateOf(now);
      if today + HorizonDays + 1 <= MaxDay {
        AddFreshRangeKeepsValid(t1, rt.id, Horizon(rt.id, today, today + HorizonDays));
      }
    }
  }

  /** The tables after CreateRoomTypeAsync, stage by stage: nothing, the room type appended, then its records added. */
  lemma CreateRoomTypeStages(t: Tables, input: RoomTypeInput, now: int)
    requires IsDateTime(now)
    ensures var t2 := CreateRoomTypeSpec(t, input, now).0;
            var rt := NewRoomType(t.roomTypes, input);
            var t1 := t.(roomTypes := t.roomTypes + [rt]);
            var today := DateOf(now);
            && (FindHotel(t.hotels, input.hotelId).None? ==> t2 == t)
            && (FindHotel(t.hotels, input.hotelId).Some? && today + HorizonDays + 1 > MaxDay ==> t2 == t1)
            && (FindHotel(t.hotels, input.hotelId).Some? && today + HorizonDays + 1 <= MaxDay ==>
                  t2 == t1.(inventory := AddRange(t.inventory, Horizon(rt.id, today, today + HorizonDays))))
  {
    var today := DateOf(now);
    if today + HorizonDays + 1 <= MaxDay {
      InitializeInventoryOk(t.inventory, NewRoomType(t.roomTypes, input).id, today);
    }
  }

  /** Appending an active room type of a stored hotel under an unused Id keeps the database valid. */
  lemma AppendRoomTypeKeepsValid(t: Tables, rt: RoomType)
    requires ValidTables(t)
    requires FindHotel(t.hotels, rt.hotelId).Some?
    requires forall i :: 0 <= i < |t.roomTypes| ==> t.roomTypes[i].id < rt.id
    ensures ValidTables(t.(roomTypes := t.roomTypes + [rt]))
    ensures FindRoomType(t.roomTypes + [rt], rt.id).Some?
    ensures forall k :: k in t.inventory ==> k.0 != rt.id
  {
    FindRoomTypeAppended(t.roomTypes, rt, rt.id);
    var rts1 := t.roomTypes + [rt];
    assert UniqueRoomTypeIds(rts1) by {
      forall i, j | 0 <= i < j < |rts1| ensures rts1[i].id != rts1[j].id {
        assert rts1[i] == t.roomTypes[i];
        if j < |t.roomTypes| {
          assert rts1[j] == t.roomTypes[j];
        }
      }
    }
    forall i | 0 <= i < |rts1| ensures FindHotel(t.hotels, rts1[i].hotelId).Some? {
      if i < |t.roomTypes| {
        assert rts1[i] == t.roomTypes[i];
      }
    }
    forall id | FindRoomType(t.roomTypes, id).Some? ensures FindRoomType(rts1, id).Some? {
      FindRoomTypeAppended(t.roomTypes, rt, id);
    }
    assert forall i :: 0 <= i < |t.bookings| ==> BookingLinked(t.bookings[i], t.hotels, rts1);
    assert FindRoomType(t.roomTypes, rt.id).None? by {
      forall i | 0 <= i < |t.roomTypes| ensures t.roomTypes[i].id != rt.id {
      }
    }
  }

  /** Adding default records on keys of a stored room type that has none yet keeps the database valid. */
  lemma AddFreshRangeKeepsValid(t: Tables, id: int, keys: seq<Key>)
    requires ValidTables(t)
    requires FindRoomType(t.roomTypes, id).Some?
    requires forall k :: k in t.inventory ==> k.0 != id
    requires forall k :: k in keys ==> k.0 == id && IsDay(k.1)
    ensures ValidTables(t.(inventory := AddRange(t.inventory, keys)))
  {
    AddFreshRangeRecords(t.inventory, t.roomTypes, id, keys);
    AddFreshRangeAccounted(t.inventory, t.bookings, keys);
  }

  /** The added records are fresh and sound, and every key names a stored room type on a calendar day. */
  lemma AddFreshRangeRecords(l: Ledger, roomTypes: seq<RoomType>, id: int, keys: seq<Key>)
    requires LedgerSound(l)
    requires forall k :: k in l ==> FindRoomType(roomTypes, k.0).Some? && IsDay(k.1)
    requires FindRoomType(roomTypes, id).Some?
    requires forall k :: k in keys ==> k.0 == id && IsDay(k.1)
    ensures LedgerSound(AddRange(l, keys))
    ensures forall k :: k in AddRange(l, keys) ==> FindRoomType(roomTypes, k.0).Some? && IsDay(k.1)
  {
    var l1 := AddRange(l, keys);
    forall k: Key | k in l1 ensures FindRoomType(roomTypes, k.0).Some? && IsDay(k.1) && l1[k].Sound() {
      if k !in keys {
        assert l1[k] == l[k];
      }
    }
  }

  /** Records added under keys no booking holds keep every held room accounted for. */
  lemma AddFreshRangeAccounted(l: Ledger, bookings: seq<Booking>, keys: seq<Key>)
    requires Accounted(l, bookings)
    requires forall k :: k in keys ==> k !in l
    ensures Accounted(AddRange(l, keys), bookings)
  {
    var l1 := AddRange(l, keys);
    forall k: Key | Held(bookings, k) > 0 ensures k in l1 && Held(bookings, k) <= l1[k].reservedRooms {
      assert k in l && k !in keys;
    }
  }

  // ---------------------------------------------------------------------
  // UpdateRoomTypeAsync and DeleteRoomTypeAsync

  /**
   * The mapping of the update input onto a stored room type: every mapped
   * field is overwritten, the hotel reference included; the Id stays.
   */
  function Updated(rt: RoomType, input: RoomTypeInput): (r: RoomType)
    ensures r.id == rt.id && r.hotelId == input.hotelId
    ensures r.name == input.name && r.capacity == input.capacity
    ensures r.basePrice == input.basePrice && r.isActive == input.isActive
  {
    rt.(hotelId := input.hotelId, name := input.name, capacity := input.capacity,
        basePrice := input.basePrice, isActive := input.isActive)
  }

  /**
   * UpdateRoomTypeAsync(id): FindAsync, then the mapped fields. An unknown
   * Id throws; a HotelId naming no hotel is refused by the foreign key
   * when the change is saved, and nothing is stored.
   */
  function UpdateRoomTypeSpec(t: Tables, id: int, input: RoomTypeInput): (r: Result<seq<RoomType>, Error>)
    ensures FindRoomType(t.roomTypes, id).None? ==> r == Err(RoomTypeNotFound(id))
    ensures FindRoomType(t.roomTypes, id).Some? && FindHotel(t.hotels, input.hotelId).None? ==>
              r == Err(HotelReferenceBroken(input.hotelId))
    ensures r.Ok? <==> FindRoomType(t.roomTypes, id).Some? && FindHotel(t.hotels, input.hotelId).Some?
    ensures r.Ok? ==>
              && |r.value| == |t.roomTypes|
              && (forall i :: 0 <= i < |t.roomTypes| ==>
                    r.value[i] == if i == RoomTypeIndex(t.roomTypes, id).value
                                  then Updated(t.roomTypes[i], input) else t.roomTypes[i])
  {
    match RoomTypeIndex(t.roomTypes, id)
    case None => Err(RoomTypeNotFound(id))
    case Some(i) =>
      if FindHotel(t.hotels, input.hotelId).None? then Err(HotelReferenceBroken(input.hotelId))
      else Ok(t.roomTypes[i := Updated(t.roomTypes[i], input)])
  }

  /** DeleteRoomTypeAsync(id): false for an unknown Id; otherwise only IsActive is cleared and the row stays. */
  function DeleteRoomTypeSpec(roomTypes: seq<RoomType>, id: int): (r: (bool, seq<RoomType>))
    ensures r.0 <==> FindRoomType(roomTypes, id).Some?
    ensures !r.0 ==> r.1 == roomTypes
    ensures |r.1| == |roomTypes|
    ensures forall i :: 0 <= i < |roomTypes| ==>
              && r.1[i].(isActive := roomTypes[i].isActive) == roomTypes[i]
              && (r.1[i].isActive <==> roomTypes[i].isActive && !(r.0 && i == RoomTypeIndex(roomTypes, id).value))
  {
    match RoomTypeIndex(roomTypes, id)
    case None => (false, roomTypes)
    case Some(i) => (true, roomTypes[i := roomTypes[i].(isActive := false)])
  }

  /** Deleting twice is deleting once. */
  lemma DeleteRoomTypeIdempotent(roomTypes: seq<RoomType>, id: int)
    ensures DeleteRoomTypeSpec(DeleteRoomTypeSpec(roomTypes, id).1, id).1 == DeleteRoomTypeSpec(roomTypes, id).1
  {
    var r1 := DeleteRoomTypeSpec(roomTypes, id).1;
    if FindRoomType(roomTypes, id).Some? {
      var i := RoomTypeIndex(roomTypes, id).value;
      assert RoomTypeIndex(r1, id) == Some(i) by {
        RoomTypeIndexSame(roomTypes, r1, id);
      }
    }
  }

  /** Two tables with the same Ids in the same places find an Id at the same place. */
  lemma {:induction false} RoomTypeIndexSame(a: seq<RoomType>, b: seq<RoomType>, id: int)
    requires |a| == |b| && forall i :: 0 <= i < |a| ==> a[i].id == b[i].id
    ensures RoomTypeIndex(a, id) == RoomTypeIndex(b, id)
  {
    if a != [] {
      RoomTypeIndexSame(a[1..], b[1..], id);
    }
  }

  /** Rewriting room types in place, keeping each Id and referring to stored hotels only, keeps a valid database valid. */
  lemma RewriteRoomTypesKeepsValid(t: Tables, rts1: seq<RoomType>)
    requires ValidTables(t)
    requires |rts1| == |t.roomTypes|
    requires forall i :: 0 <= i < |rts1| ==> rts1[i].id == t.roomTypes[i].id
    requires forall i :: 0 <= i < |rts1| ==> FindHotel(t.hotels, rts1[i].hotelId).Some?
    ensures ValidTables(t.(roomTypes := rts1))
  {
    forall id ensures FindRoomType(rts1, id).Some? <==> FindRoomType(t.roomTypes, id).Some? {
      if FindRoomType(rts1, id).Some? {
        var i :| 0 <= i < |rts1| && rts1[i].id == id;
        assert t.roomTypes[i].id == id;
      }
      if FindRoomType(t.roomTypes, id).Some? {
        var i :| 0 <= i < |rts1| && t.roomTypes[i].id == id;
        assert rts1[i].id == id;
      }
    }
    assert forall i :: 0 <= i < |t.bookings| ==> BookingLinked(t.bookings[i], t.hotels, rts1);
  }

  /** A successful update keeps a valid database valid, also when it moves the room type to another hotel. */
  lemma UpdateRoomTypePreservesValid(t: Tables, id: int, input: RoomTypeInput)
    requires ValidTables(t)
    requires UpdateRoomTypeSpec(t, id, input).Ok?
    ensures ValidTables(t.(roomTypes := UpdateRoomTypeSpec(t, id, input).value))
  {
    RewriteRoomTypesKeepsValid(t, UpdateRoomTypeSpec(t, id, input).value);
  }

  /** A soft delete keeps a valid database valid: the row, and every reference to it, stays. */
  lemma DeleteRoomTypePreservesValid(t: Tables, id: int)
    requires ValidTables(t)
    ensures ValidTables(t.(roomTypes := DeleteRoomTypeSpec(t.roomTypes, id).1))
  {
    RewriteRoomTypesKeepsValid(t, DeleteRoomTypeSpec(t.roomTypes, id).1);
  }

  // ---------------------------------------------------------------------
  // GetRoomTypesByHotelAsync

  /** Where(rt => rt.HotelId == hotelId && rt.IsActive). */
  function ActiveOfHotel(hotelId: int): RoomType -> bool
  {
    (rt: RoomType) => rt.hotelId == hotelId && rt.isActive
  }

  /** The hotel's active room types, in table order. */
  function ActiveRoomTypes(roomTypes: seq<RoomType>, hotelId: int): (r: seq<RoomType>)
    ensures forall x :: x in r <==> x in roomTypes && x.hotelId == hotelId && x.isActive
  {
    Filter(roomTypes, ActiveOfHotel(hotelId))
  }

  /** Inventories.FirstOrDefault()?.AvailableRooms ?? 0 over the records dated today. */
  function AvailableToday(l: Ledger, id: int, today: int): (n: int)
    ensures (id, today) in l ==> n + l[(id, today)].reservedRooms == l[(id, today)].totalRooms
    ensures (id, today) !in l ==> n == 0
    ensures LedgerSound(l) ==> n >= 0
  {
    if (id, today) in l then l[(id, today)].AvailableRooms() else 0
  }

  // ---------------------------------------------------------------------
  // The service object

  class RoomTypeService {
    const db: AppDbContext

    constructor (db: AppDbContext)
      ensures this.db == db
    {
      this.db := db;
    }

    /**
     * GetRoomTypesByHotelAsync at instant now: the hotel's active room
     * types, each given the rooms still free on today's record (0 without one).
     */
    method GetRoomTypesByHotel(hotelId: int, now: int) returns (r: seq<RoomTypeView>)
      ensures var rts := ActiveRoomTypes(db.roomTypes, hotelId);
              && |r| == |rts|
              && (forall i :: 0 <= i < |r| ==>
                    r[i].roomType == rts[i] && r[i].availableRooms == AvailableToday(db.inventory, rts[i].id, DateOf(now)))
    {
      var rts := ActiveRoomTypes(db.roomTypes, hotelId);
      var today := DateOf(now);
      r := [];
      var i := 0;
      while i < |rts|
        invariant 0 <= i <= |rts| && |r| == i
        invariant forall j :: 0 <= j < i ==>
                    r[j].roomType == rts[j] && r[j].availableRooms == AvailableToday(db.inventory, rts[j].id, today)
      {
        var rt := rts[i];
        var available := 0;
        if (rt.id, today) in db.inventory {
          available := db.inventory[(rt.id, today)].AvailableRooms();
        }
        r := r + [RoomTypeView(rt, available)];
        i := i + 1;
      }
    }

    /** CreateRoomTypeAsync: saves the room type, then initialises and saves its inventory. */
    method CreateRoomType(input: RoomTypeInput, now: int) returns (r: Result<RoomType, Error>)
      requires IsDateTime(now)
      modifies db
      ensures (db.State(), r) == CreateRoomTypeSpec(old(db.State()), input, now)
      ensures old(db.Valid()) ==> db.Valid()
    {
      if db.Valid() {
        CreateRoomTypePreservesValid(db.State(), input, now);
      }
      if FindHotel(db.hotels, input.hotelId).None? {
        return Err(HotelNotFound(input.hotelId));
      }
      var rt := NewRoomType(db.roomTypes, input);
      db.SaveChanges(db.State().(roomTypes := db.roomTypes + [rt]));
      var init := InitializeInventory(rt.id, DateOf(now));
      if init.Err? {
        return Err(init.error);
      }
      r := Ok(rt);
    }

    /** InitializeInventoryAsync: collects one default record per date, then adds them all and saves. */
    method InitializeInventory(id: int, today: int) returns (r: Result<(), Error>)
      requires IsDay(today)
      modifies db
      ensures match InitializeInventorySpec(old(db.inventory), id, today)
              case Ok(l1) => r == Ok(()) && db.State() == old(db.State()).(inventory := l1)
              case Err(e) => r == Err(e) && db.State() == old(db.State())
    {
      var end := AddDays(today, HorizonDays);
      if end.None? {
        return Err(DateOutOfRange(today));
      }
      var endDate := end.value;
      var keys: seq<Key> := [];
      var date := today;
      while date <= endDate
        invariant today <= date <= endDate + 1 && IsDay(date)
        invariant keys == Horizon(id, today, date - 1)
        decreases endDate - date
      {
        keys := keys + [(id, date)];
        var next := AddDays(date, 1);
        if next.None? {
          return Err(DateOutOfRange(date));
        }
        date := next.value;
      }
      db.SaveChanges(db.State().(inventory := AddRange(db.inventory, keys)));
      r := Ok(());
    }

    /** UpdateRoomTypeAsync(id). */
    method UpdateRoomType(id: int, input: RoomTypeInput) returns (r: Result<(), Error>)
      modifies db
      ensures match UpdateRoomTypeSpec(old(db.State()), id, input)
              case Ok(rts) => r == Ok(()) && db.State() == old(db.State()).(roomTypes := rts)
              case Err(e) => r == Err(e) && db.State() == old(db.State())
      ensures old(db.Valid()) ==> db.Valid()
    {
      var found := RoomTypeIndex(db.roomTypes, id);
      if found.None? {
        return Err(RoomTypeNotFound(id));
      }
      var i := found.value;
      var rt := db.roomTypes[i];
      rt := rt.(hotelId := input.hotelId, name := input.name, capacity := input.capacity,
                basePrice := input.basePrice, isActive := input.isActive);
      if FindHotel(db.hotels, rt.hotelId).None? {
        return Err(HotelReferenceBroken(rt.hotelId));
      }
      if db.Valid() {
        UpdateRoomTypePreservesValid(db.State(), id, input);
      }
      db.SaveChanges(db.State().(roomTypes := db.roomTypes[i := rt]));
      r := Ok(());
    }

    /** DeleteRoomTypeAsync(id): a soft delete. */
    method DeleteRoomType(id: int) returns (deleted: bool)
      modifies db
      ensures (deleted, db.roomTypes) == DeleteRoomTypeSpec(old(db.roomTypes), id)
      ensures db.hotels == old(db.hotels) && db.inventory == old(db.inventory) && db.bookings == old(db.bookings)
      ensures old(db.Valid()) ==> db.Valid()
    {
      var found := RoomTypeIndex(db.roomTypes, id);
      if found.None? {
        return false;
      }
      var i := found.value;
      if db.Valid() {
        DeleteRoomTypePreservesValid(db.State(), id);
      }
      db.SaveChanges(db.State().(roomTypes := db.roomTypes[i := db.roomTypes[i].(isActive := false)]));
      deleted := true;
    }
  }
}
