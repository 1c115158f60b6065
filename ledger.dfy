/**
 * The room-inventory ledger: one record per (room type, date), and the
 * nightly walks over a stay [checkIn, checkOut) that the booking service
 * performs on it — the availability check, the increment when rooms are
 * booked and the decrement when they are released.
 *
 * Each walk is a function that follows the loop night by night (and fails
 * where the loop throws); a closed form says what it amounts to, in terms
 * of Demand: the rooms a set of booking lines holds on a key.
 */
module RoomLedger {
  import opened Wrappers
  import opened Models
  import opened Dto

  // ---------------------------------------------------------------------
  // Lines and the demand they place on the ledger

  /** The line a booking detail stands for: its room type and its room count. */
  function LineOf(d: BookingDetail): BookingRoom
  {
    BookingRoom(d.roomTypeId, d.numberOfRooms)
  }

  function LinesOf(ds: seq<BookingDetail>): (r: seq<BookingRoom>)
    ensures |r| == |ds|
    ensures forall i :: 0 <= i < |ds| ==> r[i] == LineOf(ds[i])
  {
    if ds == [] then [] else [LineOf(ds[0])] + LinesOf(ds[1..])
  }

  /** The rooms of room type rt that the lines ask for, all lines together. */
  function Rooms(lines: seq<BookingRoom>, rt: int): int
  {
    if lines == [] then 0
    else Rooms(lines[..|lines| - 1], rt) + (if lines[|lines| - 1].roomTypeId == rt then lines[|lines| - 1].numberOfRooms else 0)
  }

  ghost predicate NonNegativeLines(lines: seq<BookingRoom>)
  {
    forall i :: 0 <= i < |lines| ==> lines[i].numberOfRooms >= 0
  }

  lemma {:induction false} RoomsAppend(a: seq<BookingRoom>, b: seq<BookingRoom>, rt: int)
    ensures Rooms(a + b, rt) == Rooms(a, rt) + Rooms(b, rt)
    decreases |b|
  {
    if b == [] {
      assert a + b == a;
    } else {
      assert (a + b)[..|a + b| - 1] == a + b[..|b| - 1];
      RoomsAppend(a, b[..|b| - 1], rt);
    }
  }

  /** With no negative line, the rooms of one room type are at least those of any one of its lines. */
  lemma {:induction false} RoomsAtLeastLine(lines: seq<BookingRoom>, i: int)
    requires NonNegativeLines(lines)
    requires 0 <= i < |lines|
    ensures Rooms(lines, lines[i].roomTypeId) >= lines[i].numberOfRooms
  {
    var rt := lines[i].roomTypeId;
    var init := lines[..|lines| - 1];
    RoomsNonNegative(init, rt);
    if i < |lines| - 1 {
      RoomsAtLeastLine(init, i);
    }
  }

  lemma {:induction false} RoomsNonNegative(lines: seq<BookingRoom>, rt: int)
    requires NonNegativeLines(lines)
    ensures Rooms(lines, rt) >= 0
  {
    if lines != [] {
      RoomsNonNegative(lines[..|lines| - 1], rt);
    }
  }

  /** Lines of other room types ask for none of rt's rooms. */
  lemma {:induction false} RoomsOther(lines: seq<BookingRoom>, rt: int)
    requires forall i :: 0 <= i < |lines| ==> lines[i].roomTypeId != rt
    ensures Rooms(lines, rt) == 0
  {
    if lines != [] {
      RoomsOther(lines[..|lines| - 1], rt);
    }
  }

  /** The rooms the lines hold on key k = (room type, date) during the stay [checkIn, checkOut). */
  function Demand(lines: seq<BookingRoom>, checkIn: int, checkOut: int, k: Key): int
  {
    if checkIn <= k.1 < checkOut then Rooms(lines, k.0) else 0
  }

  /** The ledger with sign * Demand added to every record's ReservedRooms. */
  function AddDemand(l: Ledger, lines: seq<BookingRoom>, checkIn: int, checkOut: int, sign: int): (r: Ledger)
    ensures r.Keys == l.Keys
  {
    map k | k in l :: l[k].(reservedRooms := l[k].reservedRooms + sign * Demand(lines, checkIn, checkOut, k))
  }

  /** The ledger with delta added to ReservedRooms of room type rt on every night of [lo, hi). */
  function Shifted(l: Ledger, rt: int, lo: int, hi: int, delta: int): Ledger
  {
    map k | k in l :: if k.0 == rt && lo <= k.1 < hi then l[k].(reservedRooms := l[k].reservedRooms + delta) else l[k]
  }

  /** One more line adds its rooms to its own room type and nothing to the others. */
  lemma RoomsSnoc(done: seq<BookingRoom>, x: BookingRoom, rt: int)
    ensures Rooms(done + [x], rt) == Rooms(done, rt) + (if x.roomTypeId == rt then x.numberOfRooms else 0)
  {
    assert (done + [x])[..|done + [x]| - 1] == done;
  }

  /** Adding one more line to the demand is one more shift of its room type. */
  lemma AddDemandSnoc(l: Ledger, done: seq<BookingRoom>, x: BookingRoom, checkIn: int, checkOut: int, sign: int)
    ensures Shifted(AddDemand(l, done, checkIn, checkOut, sign), x.roomTypeId, checkIn, checkOut, sign * x.numberOfRooms)
            == AddDemand(l, done + [x], checkIn, checkOut, sign)
  {
    var w := AddDemand(l, done, checkIn, checkOut, sign);
    var a := Shifted(w, x.roomTypeId, checkIn, checkOut, sign * x.numberOfRooms);
    var b := AddDemand(l, done + [x], checkIn, checkOut, sign);
    forall k | k in l
      ensures a[k] == b[k]
    {
      DemandSnoc(done, x, checkIn, checkOut, sign, k);
    }
  }

  lemma DemandSnoc(done: seq<BookingRoom>, x: BookingRoom, checkIn: int, checkOut: int, sign: int, k: Key)
    ensures sign * Demand(done + [x], checkIn, checkOut, k)
            == sign * Demand(done, checkIn, checkOut, k)
               + (if k.0 == x.roomTypeId && checkIn <= k.1 < checkOut then sign * x.numberOfRooms else 0)
  {
    RoomsSnoc(done, x, k.0);
  }

  lemma AddDemandNone(l: Ledger, checkIn: int, checkOut: int, sign: int)
    ensures AddDemand(l, [], checkIn, checkOut, sign) == l
  {
  }

  /** A demand added zero times changes nothing. */
  lemma AddDemandZero(l: Ledger, lines: seq<BookingRoom>, checkIn: int, checkOut: int)
    ensures AddDemand(l, lines, checkIn, checkOut, 0) == l
  {
    var a := AddDemand(l, lines, checkIn, checkOut, 0);
    forall k | k in l ensures a[k] == l[k] {
    }
  }

  /** Adding a demand and then taking it away again gives the ledger back. */
  lemma AddDemandCancels(l: Ledger, lines: seq<BookingRoom>, checkIn: int, checkOut: int)
    ensures AddDemand(AddDemand(l, lines, checkIn, checkOut, 1), lines, checkIn, checkOut, -1) == l
  {
    var a := AddDemand(AddDemand(l, lines, checkIn, checkOut, 1), lines, checkIn, checkOut, -1);
    forall k | k in l
      ensures a[k] == l[k]
    {
    }
  }

  // ---------------------------------------------------------------------
  // The nightly increment / decrement

  /**
   * One line's nightly update: for each night of [lo, hi) the record of
   * room type rt is fetched with FirstAsync and its ReservedRooms moved by
   * delta; a missing record makes FirstAsync throw.
   */
  function ShiftNights(l: Ledger, rt: int, lo: int, hi: int, delta: int): Result<Ledger, Error>
    decreases hi - lo
  {
    if lo >= hi then Ok(l)
    else if (rt, lo) !in l then Err(InventoryMissing(rt, lo))
    else ShiftNights(l[(rt, lo) := l[(rt, lo)].(reservedRooms := l[(rt, lo)].reservedRooms + delta)],
                     rt, lo + 1, hi, delta)
  }

  /** Every night of [lo, hi) has a record of room type rt. */
  ghost predicate Present(l: Ledger, rt: int, lo: int, hi: int)
  {
    forall d :: lo <= d < hi ==> (rt, d) in l
  }

  /** The walk succeeds exactly when every night has a record, and then it shifts exactly those nights. */
  lemma {:induction false} ShiftNightsSpec(l: Ledger, rt: int, lo: int, hi: int, delta: int)
    ensures ShiftNights(l, rt, lo, hi, delta).Ok? <==> Present(l, rt, lo, hi)
    ensures ShiftNights(l, rt, lo, hi, delta).Ok? ==>
              ShiftNights(l, rt, lo, hi, delta).value == Shifted(l, rt, lo, hi, delta)
    decreases hi - lo
  {
    if lo >= hi {
      assert Shifted(l, rt, lo, hi, delta) == l;
    } else if (rt, lo) !in l {
      assert !Present(l, rt, lo, hi);
    } else {
      var l1 := l[(rt, lo) := l[(rt, lo)].(reservedRooms := l[(rt, lo)].reservedRooms + delta)];
      ShiftNightsSpec(l1, rt, lo + 1, hi, delta);
      assert l1.Keys == l.Keys;
      assert Present(l1, rt, lo + 1, hi) <==> Present(l, rt, lo, hi);
      assert Shifted(l1, rt, lo + 1, hi, delta) == Shifted(l, rt, lo, hi, delta);
    }
  }

  // ---------------------------------------------------------------------
  // The availability check

  /** Night d of room type rt has a record, it is open for sale, and it has n rooms free. */
  ghost predicate FitsNight(l: Ledger, rt: int, d: int, n: int)
  {
    (rt, d) in l && l[(rt, d)].isAvailable && l[(rt, d)].AvailableRooms() >= n
  }

  /**
   * One line's availability loop: the first night without a record or not
   * for sale, or with fewer than n rooms free, decides the error.
   */
  function CheckNights(l: Ledger, rt: int, lo: int, hi: int, n: int): Option<Error>
    decreases hi - lo
  {
    if lo >= hi then None
    else if (rt, lo) !in l || !l[(rt, lo)].isAvailable then Some(NoAvailability(rt, lo))
    else if l[(rt, lo)].AvailableRooms() < n then Some(NotEnoughRooms(rt, lo))
    else CheckNights(l, rt, lo + 1, hi, n)
  }

  /** The check passes exactly when every night of the stay fits the line. */
  lemma {:induction false} CheckNightsSpec(l: Ledger, rt: int, lo: int, hi: int, n: int)
    ensures CheckNights(l, rt, lo, hi, n).None? <==> (forall d :: lo <= d < hi ==> FitsNight(l, rt, d, n))
    decreases hi - lo
  {
    if lo < hi {
      CheckNightsSpec(l, rt, lo + 1, hi, n);
      if CheckNights(l, rt, lo, hi, n).None? {
        forall d | lo <= d < hi
          ensures FitsNight(l, rt, d, n)
        {
          if d > lo {
            assert lo + 1 <= d < hi;
          }
        }
      }
      if forall d :: lo <= d < hi ==> FitsNight(l, rt, d, n) {
        assert FitsNight(l, rt, lo, n);
      }
    }
  }

  /** One line booked: the check, then the increment on the same working ledger. */
  function AllocateLine(l: Ledger, line: BookingRoom, checkIn: int, checkOut: int): Result<Ledger, Error>
  {
    match CheckNights(l, line.roomTypeId, checkIn, checkOut, line.numberOfRooms)
    case Some(e) => Err(e)
    case None => ShiftNights(l, line.roomTypeId, checkIn, checkOut, line.numberOfRooms)
  }

  /** A line can be booked on top of `done` exactly when each night of its room type has room for both. */
  lemma AllocateLineSpec(l: Ledger, done: seq<BookingRoom>, x: BookingRoom, checkIn: int, checkOut: int)
    ensures AllocateLine(AddDemand(l, done, checkIn, checkOut, 1), x, checkIn, checkOut).Ok? <==>
              (forall d :: checkIn <= d < checkOut ==> FitsNight(l, x.roomTypeId, d, Rooms(done + [x], x.roomTypeId)))
    ensures AllocateLine(AddDemand(l, done, checkIn, checkOut, 1), x, checkIn, checkOut).Ok? ==>
              AllocateLine(AddDemand(l, done, checkIn, checkOut, 1), x, checkIn, checkOut).value
              == AddDemand(l, done + [x], checkIn, checkOut, 1)
  {
    var w := AddDemand(l, done, checkIn, checkOut, 1);
    var rt, n := x.roomTypeId, x.numberOfRooms;
    CheckNightsSpec(w, rt, checkIn, checkOut, n);
    FitsOnTop(l, done, x, checkIn, checkOut);
    if CheckNights(w, rt, checkIn, checkOut, n).None? {
      ShiftNightsSpec(w, rt, checkIn, checkOut, n);
      forall d | checkIn <= d < checkOut
        ensures (rt, d) in w
      {
        assert FitsNight(w, rt, d, n);
      }
      AddDemandSnoc(l, done, x, checkIn, checkOut, 1);
    }
  }

  /** A night of the stay fits the line on the working ledger exactly when it fits the lines so far and the line on the original. */
  lemma FitsOnTop(l: Ledger, done: seq<BookingRoom>, x: BookingRoom, checkIn: int, checkOut: int)
    ensures (forall d :: checkIn <= d < checkOut ==>
               FitsNight(AddDemand(l, done, checkIn, checkOut, 1), x.roomTypeId, d, x.numberOfRooms))
            <==> (forall d :: checkIn <= d < checkOut ==> FitsNight(l, x.roomTypeId, d, Rooms(done + [x], x.roomTypeId)))
  {
    var w := AddDemand(l, done, checkIn, checkOut, 1);
    var rt, n := x.roomTypeId, x.numberOfRooms;
    RoomsSnoc(done, x, rt);
    var need := Rooms(done + [x], rt);
    forall d | checkIn <= d < checkOut
      ensures FitsNight(w, rt, d, n) <==> FitsNight(l, rt, d, need)
    {
    }
  }

  /** Each night of the stay has room, on every line's room type, for everything `all` asks of it. */
  ghost predicate LinesFit(l: Ledger, all: seq<BookingRoom>, lines: seq<BookingRoom>, checkIn: int, checkOut: int)
  {
    forall i, d :: 0 <= i < |lines| && checkIn <= d < checkOut ==>
      FitsNight(l, lines[i].roomTypeId, d, Rooms(all, lines[i].roomTypeId))
  }

  /**
   * Booking the lines one after the other fits exactly when the whole demand
   * fits: the first line fits with what came before it, and the rest fit
   * with everything.
   */
  lemma LinesFitCons(l: Ledger, done: seq<BookingRoom>, x: BookingRoom, rest: seq<BookingRoom>, checkIn: int, checkOut: int)
    requires NonNegativeLines(done + [x] + rest)
    ensures LinesFit(l, done + [x] + rest, [x] + rest, checkIn, checkOut) <==>
            (forall d :: checkIn <= d < checkOut ==> FitsNight(l, x.roomTypeId, d, Rooms(done + [x], x.roomTypeId)))
            && LinesFit(l, done + [x] + rest, rest, checkIn, checkOut)
  {
    var all := done + [x] + rest;
    var rt := x.roomTypeId;
    var lines := [x] + rest;
    RoomsAppend(done + [x], rest, rt);
    assert NonNegativeLines(rest) by {
      forall i | 0 <= i < |rest| ensures rest[i].numberOfRooms >= 0 {
        assert rest[i] == all[|done| + 1 + i];
      }
    }
    RoomsNonNegative(rest, rt);
    if LinesFit(l, all, lines, checkIn, checkOut) {
      forall d | checkIn <= d < checkOut
        ensures FitsNight(l, rt, d, Rooms(done + [x], rt))
      {
        assert lines[0] == x;
        assert FitsNight(l, rt, d, Rooms(all, rt));
      }
      forall i, d | 0 <= i < |rest| && checkIn <= d < checkOut
        ensures FitsNight(l, rest[i].roomTypeId, d, Rooms(all, rest[i].roomTypeId))
      {
        assert rest[i] == lines[i + 1];
      }
    }
    if (forall d :: checkIn <= d < checkOut ==> FitsNight(l, rt, d, Rooms(done + [x], rt)))
       && LinesFit(l, all, rest, checkIn, checkOut) {
      forall i, d | 0 <= i < |lines| && checkIn <= d < checkOut
        ensures FitsNight(l, lines[i].roomTypeId, d, Rooms(all, lines[i].roomTypeId))
      {
        if i > 0 {
          assert lines[i] == rest[i - 1];
        } else if j :| 0 <= j < |rest| && rest[j].roomTypeId == rt {
          assert FitsNight(l, rest[j].roomTypeId, d, Rooms(all, rest[j].roomTypeId));
        } else {
          RoomsOther(rest, rt);
          assert FitsNight(l, rt, d, Rooms(done + [x], rt));
        }
      }
    }
  }

  /** Several lines booked one after the other, each checked and then added (no room-type checks). */
  function ReserveLines(l: Ledger, lines: seq<BookingRoom>, checkIn: int, checkOut: int): Result<Ledger, Error>
    decreases |lines|
  {
    if lines == [] then Ok(l)
    else match AllocateLine(l, lines[0], checkIn, checkOut)
      case Err(e) => Err(e)
      case Ok(l1) => ReserveLines(l1, lines[1..], checkIn, checkOut)
  }

  /** After `done` is booked, the rest books exactly when it fits on top, and then the whole demand is added. */
  lemma {:induction false} ReserveLinesAfter(l: Ledger, done: seq<BookingRoom>, rest: seq<BookingRoom>, checkIn: int, checkOut: int)
    requires NonNegativeLines(done + rest)
    ensures ReserveLines(AddDemand(l, done, checkIn, checkOut, 1), rest, checkIn, checkOut).Ok?
            <==> LinesFit(l, done + rest, rest, checkIn, checkOut)
    ensures ReserveLines(AddDemand(l, done, checkIn, checkOut, 1), rest, checkIn, checkOut).Ok? ==>
              ReserveLines(AddDemand(l, done, checkIn, checkOut, 1), rest, checkIn, checkOut).value
              == AddDemand(l, done + rest, checkIn, checkOut, 1)
    decreases |rest|
  {
    if rest != [] {
      var x := rest[0];
      assert rest == [x] + rest[1..];
      assert done + rest == done + [x] + rest[1..];
      LinesFitCons(l, done, x, rest[1..], checkIn, checkOut);
      AllocateLineSpec(l, done, x, checkIn, checkOut);
      if AllocateLine(AddDemand(l, done, checkIn, checkOut, 1), x, checkIn, checkOut).Ok? {
        ReserveLinesAfter(l, done + [x], rest[1..], checkIn, checkOut);
      }
    } else {
      assert done + rest == done;
    }
  }

  /** Booking lines that fit keeps every record within 0 <= ReservedRooms <= TotalRooms. */
  lemma AddDemandSound(l: Ledger, lines: seq<BookingRoom>, checkIn: int, checkOut: int)
    requires LedgerSound(l)
    requires NonNegativeLines(lines)
    requires LinesFit(l, lines, lines, checkIn, checkOut)
    ensures LedgerSound(AddDemand(l, lines, checkIn, checkOut, 1))
  {
    var l1 := AddDemand(l, lines, checkIn, checkOut, 1);
    forall k | k in l1
      ensures l1[k].Sound()
    {
      RoomsNonNegative(lines, k.0);
      if Demand(lines, checkIn, checkOut, k) != 0 {
        DemandHasLine(lines, checkIn, checkOut, k);
        var i :| 0 <= i < |lines| && lines[i].roomTypeId == k.0;
        assert FitsNight(l, lines[i].roomTypeId, k.1, Rooms(lines, lines[i].roomTypeId));
      }
    }
  }

  /** A key with demand on it lies in the stay and has a line of its room type. */
  lemma DemandHasLine(lines: seq<BookingRoom>, checkIn: int, checkOut: int, k: Key)
    requires Demand(lines, checkIn, checkOut, k) != 0
    ensures checkIn <= k.1 < checkOut
    ensures exists i :: 0 <= i < |lines| && lines[i].roomTypeId == k.0
  {
    if forall i :: 0 <= i < |lines| ==> lines[i].roomTypeId != k.0 {
      RoomsOther(lines, k.0);
    }
  }

  /** Where lines fit, every key they place demand on has a record. */
  lemma FitDemandHasRecord(l: Ledger, all: seq<BookingRoom>, lines: seq<BookingRoom>, checkIn: int, checkOut: int, k: Key)
    requires LinesFit(l, all, lines, checkIn, checkOut)
    requires Demand(lines, checkIn, checkOut, k) != 0
    ensures k in l
  {
    DemandHasLine(lines, checkIn, checkOut, k);
    var i :| 0 <= i < |lines| && lines[i].roomTypeId == k.0;
    assert FitsNight(l, lines[i].roomTypeId, k.1, Rooms(all, lines[i].roomTypeId));
  }

  // ---------------------------------------------------------------------
  // Release

  /** The release loops of a booking: each detail's nights, one detail after the other. */
  function ReleaseLines(l: Ledger, lines: seq<BookingRoom>, checkIn: int, checkOut: int): Result<Ledger, Error>
    decreases |lines|
  {
    if lines == [] then Ok(l)
    else match ShiftNights(l, lines[0].roomTypeId, checkIn, checkOut, -lines[0].numberOfRooms)
      case Err(e) => Err(e)
      case Ok(l1) => ReleaseLines(l1, lines[1..], checkIn, checkOut)
  }

  /** Every line's room type has a record on every night of the stay. */
  ghost predicate Covered(l: Ledger, lines: seq<BookingRoom>, checkIn: int, checkOut: int)
  {
    forall i, d :: 0 <= i < |lines| && checkIn <= d < checkOut ==> (lines[i].roomTypeId, d) in l
  }

  /** Lines that fit the ledger are covered by it once their demand is added. */
  lemma FitCovered(l: Ledger, lines: seq<BookingRoom>, checkIn: int, checkOut: int)
    requires LinesFit(l, lines, lines, checkIn, checkOut)
    ensures Covered(AddDemand(l, lines, checkIn, checkOut, 1), lines, checkIn, checkOut)
  {
    forall i, d | 0 <= i < |lines| && checkIn <= d < checkOut
      ensures (lines[i].roomTypeId, d) in AddDemand(l, lines, checkIn, checkOut, 1)
    {
      assert FitsNight(l, lines[i].roomTypeId, d, Rooms(lines, lines[i].roomTypeId));
    }
  }

  /**
   * Releasing after `done` has been released: it succeeds exactly when the
   * remaining lines are covered, and then the whole demand has been taken away.
   */
  lemma {:induction false} ReleaseLinesAfter(l: Ledger, done: seq<BookingRoom>, rest: seq<BookingRoom>, checkIn: int, checkOut: int)
    ensures ReleaseLines(AddDemand(l, done, checkIn, checkOut, -1), rest, checkIn, checkOut).Ok?
            <==> Covered(l, rest, checkIn, checkOut)
    ensures ReleaseLines(AddDemand(l, done, checkIn, checkOut, -1), rest, checkIn, checkOut).Ok? ==>
              ReleaseLines(AddDemand(l, done, checkIn, checkOut, -1), rest, checkIn, checkOut).value
              == AddDemand(l, done + rest, checkIn, checkOut, -1)
    decreases |rest|
  {
    var w := AddDemand(l, done, checkIn, checkOut, -1);
    if rest == [] {
      assert done + rest == done;
    } else {
      var x := rest[0];
      ShiftNightsSpec(w, x.roomTypeId, checkIn, checkOut, -x.numberOfRooms);
      assert Present(w, x.roomTypeId, checkIn, checkOut) <==> Present(l, x.roomTypeId, checkIn, checkOut);
      assert Covered(l, rest, checkIn, checkOut) <==>
             Present(l, x.roomTypeId, checkIn, checkOut) && Covered(l, rest[1..], checkIn, checkOut) by {
        if Present(l, x.roomTypeId, checkIn, checkOut) && Covered(l, rest[1..], checkIn, checkOut) {
          forall i, d | 0 <= i < |rest| && checkIn <= d < checkOut
            ensures (rest[i].roomTypeId, d) in l
          {
            if i > 0 {
              assert rest[i] == rest[1..][i - 1];
            }
          }
        }
        if Covered(l, rest, checkIn, checkOut) {
          forall i, d | 0 <= i < |rest[1..]| && checkIn <= d < checkOut
            ensures (rest[1..][i].roomTypeId, d) in l
          {
            assert rest[1..][i] == rest[i + 1];
          }
          forall d | checkIn <= d < checkOut
            ensures (x.roomTypeId, d) in l
          {
            assert 0 <= 0 < |rest|;
          }
        }
      }
      if Present(l, x.roomTypeId, checkIn, checkOut) {
        AddDemandSnoc(l, done, x, checkIn, checkOut, -1);
        ReleaseLinesAfter(l, done + [x], rest[1..], checkIn, checkOut);
        assert done + [x] + rest[1..] == done + rest;
      }
    }
  }

  /** Releasing a booking's lines succeeds exactly when they are covered, and removes exactly their demand. */
  lemma ReleaseLinesSpec(l: Ledger, lines: seq<BookingRoom>, checkIn: int, checkOut: int)
    ensures ReleaseLines(l, lines, checkIn, checkOut).Ok? <==> Covered(l, lines, checkIn, checkOut)
    ensures ReleaseLines(l, lines, checkIn, checkOut).Ok? ==>
              ReleaseLines(l, lines, checkIn, checkOut).value == AddDemand(l, lines, checkIn, checkOut, -1)
  {
    AddDemandNone(l, checkIn, checkOut, -1);
    ReleaseLinesAfter(l, [], lines, checkIn, checkOut);
    assert [] + lines == lines;
  }
}
