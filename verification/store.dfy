/**
 The reservation bookkeeping of the cabin complex over an in-memory store
 of its four tables: admitting a reservation, the availability grid,
 recording a payment and the guarded deletions.
 */
module Cabins {
  import opened Tables
  import opened Occupancy

  /** What the reserve button reports. */
  datatype Admission = Admitted | DoubleBooked | InvalidRange

  class Store {
    var cabins: seq<Cabin>
    var guests: seq<Guest>
    var reservations: seq<Reservation>
    var payments: seq<Payment>
    /** The id the next reservation (payment) row receives: ids are never reused. */
    var nextReservationId: int
    var nextPaymentId: int

    /** Ids are primary keys below the next id to hand out, and no two
        reservations of one cabin collide. */
    ghost predicate Valid()
      reads this
    {
      KeysDistinct(reservations, ReservationId) &&
      (forall r :: r in reservations ==> r.id < nextReservationId) &&
      KeysDistinct(payments, PaymentId) &&
      (forall p :: p in payments ==> p.id < nextPaymentId) &&
      NoDoubleBooking(reservations)
    }

    predicate HasCabin(id: int)
      reads this
    {
      exists c :: c in cabins && c.id == id
    }

    predicate HasGuest(id: int)
      reads this
    {
      exists g :: g in guests && g.id == id
    }

    /** Every reservation names a registered guest and a registered cabin. */
    ghost predicate ReferencesResolve()
      reads this
    {
      forall r :: r in reservations ==> HasCabin(r.cabinId) && HasGuest(r.guestId)
    }

    /** A store whose cabins and guests are registered and which holds no
        reservations or payments yet. */
    constructor (cabins: seq<Cabin>, guests: seq<Guest>)
      ensures Valid() && ReferencesResolve()
      ensures this.cabins == cabins && this.guests == guests
      ensures reservations == [] && payments == []
      ensures nextReservationId == 1 && nextPaymentId == 1
    {
      this.cabins := cabins;
      this.guests := guests;
      reservations := [];
      payments := [];
      nextReservationId := 1;
      nextPaymentId := 1;
    }

    /** Whether the query for reservation rows with this id returns a row. */
    function ReservationExists(id: int): (b: bool)
      reads this
      ensures b <==> exists r :: r in reservations && r.id == id
    {
      var rows := Filter(reservations, (r: Reservation) => r.id == id);
      assert rows != [] ==> rows[0] in rows;
      rows != []
    }

    /** Books [checkIn, checkOut) of a cabin for a guest unless a stored
        reservation of that cabin conflicts with it. The range itself is not
        checked here: that is left to the caller. */
    method MakeReservation(guestId: int, cabinId: int, checkIn: Day, checkOut: Day) returns (ok: bool)
      requires Valid()
      modifies this
      ensures Valid()
      ensures ok <==> Admissible(old(reservations), cabinId, checkIn, checkOut)
      ensures ok ==> (reservations == old(reservations) +
                        [Reservation(old(nextReservationId), guestId, cabinId, checkIn, checkOut)]
                      && nextReservationId == old(nextReservationId) + 1)
      ensures !ok ==> reservations == old(reservations) && nextReservationId == old(nextReservationId)
      ensures cabins == old(cabins) && guests == old(guests)
      ensures payments == old(payments) && nextPaymentId == old(nextPaymentId)
    {
      var count := CountWhere(reservations, (r: Reservation) => Conflicts(r, cabinId, checkIn, checkOut));
      CountWherePositive(reservations, (r: Reservation) => Conflicts(r, cabinId, checkIn, checkOut));
      if count > 0 {
        return false;
      }
      var n := Reservation(nextReservationId, guestId, cabinId, checkIn, checkOut);
      AdmitKeepsNoDoubleBooking(reservations, n);
      var before := reservations;
      reservations := reservations + [n];
      nextReservationId := nextReservationId + 1;
      forall i, j | 0 <= i < j < |reservations|
        ensures ReservationId(reservations[i]) != ReservationId(reservations[j])
      {
        assert reservations[i] == before[i] && reservations[i] in before;
        if j < |before| {
          assert reservations[j] == before[j];
        }
      }
      ok := true;
    }

    /** The reserve button: a range that does not end after it begins is
        refused before the store is consulted; otherwise the reservation is
        admitted or refused as double-booked. */
    method TryReserve(guestId: int, cabinId: int, checkIn: Day, checkOut: Day) returns (outcome: Admission)
      requires Valid()
      modifies this
      ensures Valid()
      ensures outcome == InvalidRange <==> !(checkIn < checkOut)
      ensures outcome == DoubleBooked <==>
                checkIn < checkOut && !Admissible(old(reservations), cabinId, checkIn, checkOut)
      ensures outcome == Admitted ==>
                reservations == old(reservations) +
                  [Reservation(old(nextReservationId), guestId, cabinId, checkIn, checkOut)]
                && nextReservationId == old(nextReservationId) + 1
      ensures outcome != Admitted ==> reservations == old(reservations) && nextReservationId == old(nextReservationId)
      ensures cabins == old(cabins) && guests == old(guests)
      ensures payments == old(payments) && nextPaymentId == old(nextPaymentId)
      ensures old(StaysNonEmpty(reservations)) ==> StaysNonEmpty(reservations)
      ensures old(ReferencesResolve()) && HasCabin(cabinId) && HasGuest(guestId) ==> ReferencesResolve()
    {
      if checkIn < checkOut {
        var ok := MakeReservation(guestId, cabinId, checkIn, checkOut);
        outcome := if ok then Admitted else DoubleBooked;
      } else {
        outcome := InvalidRange;
      }
    }

    /** The availability grid of every cabin over the days start .. end:
        row i belongs to cabins[i], column c to day start + c. Every cell
        starts free; the nights of each reservation of the row's cabin that
        fall inside the window are then marked occupied. */
    method Availability(start: Day, end: Day) returns (grid: array2<Cell>)
      ensures fresh(grid)
      ensures grid.Length0 == |cabins| && grid.Length1 == Width(start, end)
      ensures forall i, c :: 0 <= i < grid.Length0 && 0 <= c < grid.Length1 ==>
                grid[i, c] == AvailabilityRow(reservations, cabins[i].id, start, end)[c]
    {
      var rows, width := |cabins|, Width(start, end);
      grid := new Cell[rows, width]((i, c) => Free);
      var i := 0;
      while i < rows
        invariant 0 <= i <= rows
        invariant forall a, c :: 0 <= a < i && 0 <= c < width ==>
                    (grid[a, c] == Occupied <==> OccupiedBy(reservations, cabins[a].id, start + c))
        invariant forall a, c :: i <= a < rows && 0 <= c < width ==> grid[a, c] == Free
      {
        var cabinId := cabins[i].id;
        var k := 0;
        while k < |reservations|
          invariant 0 <= k <= |reservations|
          invariant forall a, c :: 0 <= a < i && 0 <= c < width ==>
                      (grid[a, c] == Occupied <==> OccupiedBy(reservations, cabins[a].id, start + c))
          invariant forall a, c :: i < a < rows && 0 <= c < width ==> grid[a, c] == Free
          invariant forall c :: 0 <= c < width ==>
                      (grid[i, c] == Occupied <==> OccupiedBy(reservations[..k], cabinId, start + c))
        {
          var r := reservations[k];
          if r.cabinId == cabinId {
            var day := r.checkIn;
            while day < r.checkOut
              invariant day == r.checkIn || r.checkIn < day <= r.checkOut
              invariant forall a, c :: 0 <= a < i && 0 <= c < width ==>
                          (grid[a, c] == Occupied <==> OccupiedBy(reservations, cabins[a].id, start + c))
              invariant forall a, c :: i < a < rows && 0 <= c < width ==> grid[a, c] == Free
              invariant forall c :: 0 <= c < width ==>
                          (grid[i, c] == Occupied <==>
                           OccupiedBy(reservations[..k], cabinId, start + c) || r.checkIn <= start + c < day)
              decreases r.checkOut - day
            {
              if start <= day <= end {
                grid[i, day - start] := Occupied;
              }
              day := day + 1;
            }
          }
          assert reservations[..k + 1] == reservations[..k] + [r];
          forall d
            ensures OccupiedBy(reservations[..k + 1], cabinId, d) <==>
                    OccupiedBy(reservations[..k], cabinId, d) || Covers(r, cabinId, d)
          {
            AdmissionMarksItsNights(reservations[..k], r, cabinId, d);
          }
          k := k + 1;
        }
        assert reservations[..|reservations|] == reservations;
        i := i + 1;
      }
    }

    /** Records a payment for a reservation on the given day. Whether the
        reservation exists is not checked. */
    method RecordPayment(reservationId: int, paidBy: string, date: Day)
      requires Valid()
      modifies this
      ensures Valid()
      ensures payments == old(payments) + [Payment(old(nextPaymentId), reservationId, paidBy, date)]
      ensures nextPaymentId == old(nextPaymentId) + 1
      ensures cabins == old(cabins) && guests == old(guests)
      ensures reservations == old(reservations) && nextReservationId == old(nextReservationId)
    {
      var before := payments;
      payments := payments + [Payment(nextPaymentId, reservationId, paidBy, date)];
      nextPaymentId := nextPaymentId + 1;
      forall i, j | 0 <= i < j < |payments|
        ensures PaymentId(payments[i]) != PaymentId(payments[j])
      {
        assert payments[i] == before[i] && payments[i] in before;
        if j < |before| {
          assert payments[j] == before[j];
        }
      }
    }

    /** Deletes the cabin with this id unless a reservation references it. */
    method DeleteCabin(id: int) returns (ok: bool)
      requires Valid()
      modifies this
      ensures Valid()
      ensures ok <==> forall r :: r in old(reservations) ==> r.cabinId != id
      ensures cabins == if ok then Filter(old(cabins), (c: Cabin) => c.id != id) else old(cabins)
      ensures ok ==> !HasCabin(id)
      ensures guests == old(guests) && reservations == old(reservations) && payments == old(payments)
      ensures nextReservationId == old(nextReservationId) && nextPaymentId == old(nextPaymentId)
      ensures old(ReferencesResolve()) ==> ReferencesResolve()
    {
      var count := CountWhere(reservations, (r: Reservation) => r.cabinId == id);
      CountWherePositive(reservations, (r: Reservation) => r.cabinId == id);
      if count > 0 {
        return false;
      }
      ghost var before := cabins;
      cabins := Filter(cabins, (c: Cabin) => c.id != id);
      forall r | r in reservations && old(ReferencesResolve()) ensures HasCabin(r.cabinId) {
        var c :| c in before && c.id == r.cabinId;
        assert c in cabins;
      }
      ok := true;
    }

    /** Deletes the guest with this id unless a reservation references them. */
    method DeleteGuest(id: int) returns (ok: bool)
      requires Valid()
      modifies this
      ensures Valid()
      ensures ok <==> forall r :: r in old(reservations) ==> r.guestId != id
      ensures guests == if ok then Filter(old(guests), (g: Guest) => g.id != id) else old(guests)
      ensures ok ==> !HasGuest(id)
      ensures cabins == old(cabins) && reservations == old(reservations) && payments == old(payments)
      ensures nextReservationId == old(nextReservationId) && nextPaymentId == old(nextPaymentId)
      ensures old(ReferencesResolve()) ==> ReferencesResolve()
    {
      var count := CountWhere(reservations, (r: Reservation) => r.guestId == id);
      CountWherePositive(reservations, (r: Reservation) => r.guestId == id);
      if count > 0 {
        return false;
      }
      ghost var before := guests;
      guests := Filter(guests, (g: Guest) => g.id != id);
      forall r | r in reservations && old(ReferencesResolve()) ensures HasGuest(r.guestId) {
        var g :| g in before && g.id == r.guestId;
        assert g in guests;
      }
      ok := true;
    }

    /** Deletes the payments of a reservation, then the reservation itself. */
    method DeleteReservation(id: int) returns (ok: bool)
      requires Valid()
      modifies this
      ensures Valid() && ok
      ensures payments == Filter(old(payments), (p: Payment) => p.reservationId != id)
      ensures reservations == Filter(old(reservations), (r: Reservation) => r.id != id)
      ensures !ReservationExists(id)
      ensures forall p :: p in payments ==> p.reservationId != id
      ensures cabins == old(cabins) && guests == old(guests)
      ensures nextReservationId == old(nextReservationId) && nextPaymentId == old(nextPaymentId)
      ensures old(ReferencesResolve()) ==> ReferencesResolve()
      ensures old(StaysNonEmpty(reservations)) ==> StaysNonEmpty(reservations)
    {
      FilterKeepsKeysDistinct(payments, (p: Payment) => p.reservationId != id, PaymentId);
      payments := Filter(payments, (p: Payment) => p.reservationId != id);
      FilterKeepsKeysDistinct(reservations, (r: Reservation) => r.id != id, ReservationId);
      ghost var before := reservations;
      reservations := Filter(reservations, (r: Reservation) => r.id != id);
      FewerKeepsNoDoubleBooking(before, reservations);
      ok := true;
    }
  }

  /** A client of the store running the turnover scenario: two stays of
      one cabin that meet on a day are both admitted, one that overlaps the
      first is refused and a stay that ends when it begins is refused as an
      invalid range. */
  method TurnoverClient()
  {
    var stay, next := Reservation(1, 1, 1, 1, 5), Reservation(2, 1, 1, 5, 8);
    TurnoverScenario(stay, next);
    var store := new Store([Cabin(1, "A", 4)], [Guest(1, "G", "D", None)]);
    var first := store.TryReserve(1, 1, 1, 5);
    assert first == Admitted && store.reservations == [stay];
    var clash := store.TryReserve(1, 1, 3, 6);
    assert clash == DoubleBooked && store.reservations == [stay];
    var second := store.TryReserve(1, 1, 5, 8);
    assert second == Admitted && store.reservations == [stay, next];
    var backwards := store.TryReserve(1, 1, 8, 8);
    assert backwards == InvalidRange;
    TurnoverGrid(store);
  }

  /** The grid of the turnover scenario: the nights of both stays are
      occupied and the last check-out day is free. */
  method TurnoverGrid(store: Store)
    requires store.cabins == [Cabin(1, "A", 4)]
    requires store.reservations == [Reservation(1, 1, 1, 1, 5), Reservation(2, 1, 1, 5, 8)]
  {
    TurnoverScenario(Reservation(1, 1, 1, 1, 5), Reservation(2, 1, 1, 5, 8));
    var grid := store.Availability(1, 8);
    assert grid[0, 0] == Occupied && grid[0, 4] == Occupied && grid[0, 6] == Occupied;
    assert grid[0, 7] == Free;
  }
}
