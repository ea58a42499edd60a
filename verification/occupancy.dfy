/**
 What the reservations of a cabin occupy: the half-open conflict test the
 admission query uses, the rule for admitting a new stay, and the per-day
 free/occupied row of the availability grid, with the facts that tie the
 three together.
 */
module Occupancy {
  import opened Tables

  /** A stay from checkIn to checkOut sleeps in the cabin on night `day`
      (the check-out day itself is not a night of the stay). */
  predicate StaysNight(checkIn: Day, checkOut: Day, day: Day)
  {
    checkIn <= day < checkOut
  }

  /** The conflict test of the admission query, in the query's own form:
      the stay [aIn, aOut) collides with [bIn, bOut) unless it ends on or
      before bIn or starts on or after bOut. */
  function Overlaps(aIn: Day, aOut: Day, bIn: Day, bOut: Day): (b: bool)
    ensures b <==> aIn < bOut && bIn < aOut
  {
    !(aOut <= bIn || aIn >= bOut)
  }

  lemma OverlapsSymmetric(aIn: Day, aOut: Day, bIn: Day, bOut: Day)
    ensures Overlaps(aIn, aOut, bIn, bOut) == Overlaps(bIn, bOut, aIn, aOut)
  {
  }

  /** Same-day turnover: a stay that ends on the day another begins does
      not collide with it, in either order. */
  lemma SameDayTurnover(aIn: Day, day: Day, bOut: Day)
    ensures !Overlaps(aIn, day, day, bOut) && !Overlaps(day, bOut, aIn, day)
  {
  }

  /** For two non-empty stays, the test holds exactly when they share a night. */
  lemma OverlapsIffSharedNight(aIn: Day, aOut: Day, bIn: Day, bOut: Day)
    requires aIn < aOut && bIn < bOut
    ensures Overlaps(aIn, aOut, bIn, bOut) <==>
            exists day :: StaysNight(aIn, aOut, day) && StaysNight(bIn, bOut, day)
  {
    if Overlaps(aIn, aOut, bIn, bOut) {
      var day := if aIn < bIn then bIn else aIn;
      assert StaysNight(aIn, aOut, day) && StaysNight(bIn, bOut, day);
    }
  }

  /** The `WHERE` clause of the admission query: a stored reservation of
      the same cabin whose stay collides with [checkIn, checkOut). */
  predicate Conflicts(r: Reservation, cabinId: int, checkIn: Day, checkOut: Day)
  {
    r.cabinId == cabinId && Overlaps(r.checkIn, r.checkOut, checkIn, checkOut)
  }

  /** A new stay may be booked when no stored reservation conflicts with it. */
  predicate Admissible(rs: seq<Reservation>, cabinId: int, checkIn: Day, checkOut: Day)
  {
    forall r :: r in rs ==> !Conflicts(r, cabinId, checkIn, checkOut)
  }

  /** No two different reservations of one cabin collide. */
  ghost predicate NoDoubleBooking(rs: seq<Reservation>)
  {
    forall a, b :: a in rs && b in rs && a != b && a.cabinId == b.cabinId ==>
      !Overlaps(a.checkIn, a.checkOut, b.checkIn, b.checkOut)
  }

  /** Every stored stay is at least one night long. */
  ghost predicate StaysNonEmpty(rs: seq<Reservation>)
  {
    forall r :: r in rs ==> r.checkIn < r.checkOut
  }

  /** Appending an admissible reservation keeps the cabins free of double bookings. */
  lemma AdmitKeepsNoDoubleBooking(rs: seq<Reservation>, n: Reservation)
    requires NoDoubleBooking(rs)
    requires Admissible(rs, n.cabinId, n.checkIn, n.checkOut)
    ensures NoDoubleBooking(rs + [n])
  {
  }

  /** Deleting reservations never creates a double booking. */
  lemma FewerKeepsNoDoubleBooking(rs: seq<Reservation>, fewer: seq<Reservation>)
    requires NoDoubleBooking(rs)
    requires forall r :: r in fewer ==> r in rs
    ensures NoDoubleBooking(fewer)
  {
  }

  /** Reservation `r` marks night `day` of cabin `cabinId`. */
  predicate Covers(r: Reservation, cabinId: int, day: Day)
  {
    r.cabinId == cabinId && StaysNight(r.checkIn, r.checkOut, day)
  }

  /** Whether some reservation of `rs` marks night `day` of the cabin,
      taking the reservations in table order as the grid does. */
  function OccupiedBy(rs: seq<Reservation>, cabinId: int, day: Day): bool
  {
    if rs == [] then false
    else OccupiedBy(rs[..|rs| - 1], cabinId, day) || Covers(rs[|rs| - 1], cabinId, day)
  }

  /** A night is occupied exactly when some reservation of the cabin covers it. */
  lemma {:induction false} OccupiedByIff(rs: seq<Reservation>, cabinId: int, day: Day)
    ensures OccupiedBy(rs, cabinId, day) <==> exists r :: r in rs && Covers(r, cabinId, day)
  {
    if rs != [] {
      var init := rs[..|rs| - 1];
      OccupiedByIff(init, cabinId, day);
      assert rs == init + [rs[|rs| - 1]];
    }
  }

  /** Admitting reservation `n` marks exactly its own nights in addition
      to those already occupied. */
  lemma AdmissionMarksItsNights(rs: seq<Reservation>, n: Reservation, cabinId: int, day: Day)
    ensures OccupiedBy(rs + [n], cabinId, day) <==> OccupiedBy(rs, cabinId, day) || Covers(n, cabinId, day)
  {
  }

  datatype Cell = Free | Occupied

  /** Number of days from `start` to `end` inclusive; none when the window is reversed. */
  function Width(start: Day, end: Day): nat
  {
    if start <= end then end - start + 1 else 0
  }

  /** One cabin's row of the availability grid: column c is day start + c. */
  function AvailabilityRow(rs: seq<Reservation>, cabinId: int, start: Day, end: Day): (row: seq<Cell>)
    ensures |row| == Width(start, end)
  {
    seq(Width(start, end), c => if OccupiedBy(rs, cabinId, start + c) then Occupied else Free)
  }

  /** Each in-window day is occupied exactly when some reservation of the
      cabin has checkIn <= day < checkOut, and free otherwise. */
  lemma AvailabilityRowMeaning(rs: seq<Reservation>, cabinId: int, start: Day, end: Day, day: Day)
    requires start <= day <= end
    ensures |AvailabilityRow(rs, cabinId, start, end)| == end - start + 1
    ensures AvailabilityRow(rs, cabinId, start, end)[day - start] == Occupied <==>
            exists r :: r in rs && r.cabinId == cabinId && r.checkIn <= day < r.checkOut
    ensures AvailabilityRow(rs, cabinId, start, end)[day - start] == Free <==>
            forall r :: r in rs && r.cabinId == cabinId ==> !(r.checkIn <= day < r.checkOut)
  {
    OccupiedByIff(rs, cabinId, day);
  }

  /** Every day of the row is free. */
  predicate AllFree(row: seq<Cell>)
  {
    forall c :: 0 <= c < |row| ==> row[c] == Free
  }

  /** With well-formed stays, a stay [checkIn, checkOut) may be booked
      exactly when the cabin's availability row over its nights is all free. */
  lemma AdmissibleIffNightsFree(rs: seq<Reservation>, cabinId: int, checkIn: Day, checkOut: Day)
    requires StaysNonEmpty(rs)
    requires checkIn < checkOut
    ensures Admissible(rs, cabinId, checkIn, checkOut) <==>
            AllFree(AvailabilityRow(rs, cabinId, checkIn, checkOut - 1))
  {
    var row := AvailabilityRow(rs, cabinId, checkIn, checkOut - 1);
    if Admissible(rs, cabinId, checkIn, checkOut) {
      forall c | 0 <= c < |row| ensures row[c] == Free {
        var day := checkIn + c;
        assert StaysNight(checkIn, checkOut, day);
        forall r | r in rs && r.cabinId == cabinId ensures !Covers(r, cabinId, day) {
          OverlapsIffSharedNight(r.checkIn, r.checkOut, checkIn, checkOut);
        }
        OccupiedByIff(rs, cabinId, day);
      }
    } else {
      var r :| r in rs && Conflicts(r, cabinId, checkIn, checkOut);
      OverlapsIffSharedNight(r.checkIn, r.checkOut, checkIn, checkOut);
      var day :| StaysNight(r.checkIn, r.checkOut, day) && StaysNight(checkIn, checkOut, day);
      OccupiedByIff(rs, cabinId, day);
      assert Covers(r, cabinId, day);
      assert row[day - checkIn] == Occupied;
    }
  }

  /** The turnover scenario on one cabin: [1, 5) is admissible on an empty
      table; [3, 6) then conflicts with it while [5, 8) does not; with both
      [1, 5) and [5, 8) stored, the grid over days 1 .. 8 is occupied on
      days 1 .. 7 and free on day 8. */
  lemma TurnoverScenario(stay: Reservation, next: Reservation)
    requires stay == Reservation(1, 1, 1, 1, 5) && next == Reservation(2, 1, 1, 5, 8)
    ensures Admissible([], 1, 1, 5)
    ensures !Admissible([stay], 1, 3, 6)
    ensures Admissible([stay], 1, 5, 8)
    ensures |AvailabilityRow([stay, next], 1, 1, 8)| == 8
    ensures forall c :: 0 <= c < 7 ==> AvailabilityRow([stay, next], 1, 1, 8)[c] == Occupied
    ensures AvailabilityRow([stay, next], 1, 1, 8)[7] == Free
  {
    assert Conflicts(stay, 1, 3, 6);
    SameDayTurnover(1, 5, 8);
    forall c | 0 <= c < 7 ensures AvailabilityRow([stay, next], 1, 1, 8)[c] == Occupied {
      AvailabilityRowMeaning([stay, next], 1, 1, 8, 1 + c);
      if c < 4 {
        assert Covers(stay, 1, 1 + c);
      } else {
        assert Covers(next, 1, 1 + c);
      }
    }
    AvailabilityRowMeaning([stay, next], 1, 1, 8, 8);
  }
}
