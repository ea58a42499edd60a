# Cabin complex reservation bookkeeping in Dafny

A model of the bookkeeping core of a small cabin-rental application (a single
Streamlit script, `app.py`). The application keeps four SQLite tables: cabins,
guests, reservations and payments. Its logic is small and sits in a few functions:

- `hacer_reserva` admits a reservation only when no stored reservation of the same
  cabin collides with it under the half-open test `NOT (check_out <= in OR check_in >= out)`.
- The reserve button refuses a stay whose check-out is not after its check-in.
- `disponibilidad_cabanas` builds a grid with one row per cabin and one column per
  day of a window. It starts with every cell free and marks each reservation's
  nights inside the window as occupied.
- `borrar_cabana` and `borrar_cliente` refuse to delete a cabin or guest that a
  reservation still references.
- `borrar_reserva` deletes a reservation's payments, then the reservation.
- `reserva_existe` looks up a reservation id; `registrar_pago` records a payment.

The model has three modules:

- `Tables` (tables.dfy): the four records, plus the two table queries the code
  relies on. `Filter` is what a `DELETE ... WHERE` leaves. `CountWhere` is a
  `SELECT COUNT(*) ... WHERE`. Lemmas show that a count is positive exactly when
  a row matches, and that deleting rows keeps primary keys distinct.
- `Occupancy` (occupancy.dfy): the overlap test lifted out of the admission
  query, the admission rule, the no-double-booking invariant and one cabin's
  availability row. The lemmas tie these together. The main one is
  `AdmissibleIffNightsFree`: a stay may be booked exactly when the availability
  row over its nights is all free.
- `Cabins` (store.dfy): class `Store`. Its `seq` fields are the tables, and two
  counters play the part of SQLite's `AUTOINCREMENT` ids. Each source operation is
  a method. `Valid()` is the invariant every method keeps: ids are distinct and
  below the next id, and no two reservations of one cabin collide.
  `ReferencesResolve()` holds when every reservation names a registered cabin and
  guest. The deletion guards preserve it, and so does the reserve button when
  given registered ids. `Availability` fills a fresh `array2` in the source's
  nested loops over cabins, reservations and nights. It reads the store and does
  not write it. Each row equals `AvailabilityRow`, a function of the reservation
  table and the window only, so two calls with no write in between give the same grid.

Calendar dates are integer day numbers. The store keeps ISO `YYYY-MM-DD` text,
and comparing that text orders dates chronologically, so integers keep every
comparison the queries make.

Two points follow the code as written:

- No admission path checks that the guest or cabin exists. The user interface
  offers only registered ones, so `TryReserve` has no `NotFound` outcome.
- The availability grid covers every cabin at once, not one cabin at a time.
  `AvailabilityRow` gives the one-cabin view.

## Model

| member | source | states |
|---|---|---|
| `Occupancy.Overlaps` | app.py:73 | the query's test `NOT (check_out <= in OR check_in >= out)` holds exactly when `check_in < out` and `in < check_out` (half-open overlap) |
| `Occupancy.OverlapsSymmetric` | app.py:73 | the conflict test gives the same answer whichever of the two stays is the stored one |
| `Occupancy.SameDayTurnover` | app.py:73 | a stay ending on the day another begins does not collide with it, in either order |
| `Occupancy.OverlapsIffSharedNight` | app.py:73 | for two stays of at least one night, the test holds exactly when they share a night |
| `Occupancy.AdmitKeepsNoDoubleBooking` | app.py:70-84 | appending a reservation that conflicts with no stored one keeps every cabin free of colliding reservations |
| `Occupancy.FewerKeepsNoDoubleBooking` | app.py:143-148 | removing reservations never creates a double booking |
| `Occupancy.OccupiedByIff` | app.py:101-108 | marking reservations one after another leaves a night occupied exactly when some reservation of the cabin covers it |
| `Occupancy.AdmissionMarksItsNights` | app.py:79-108 | after a reservation is added, the occupied nights are the earlier ones plus exactly the new stay's nights |
| `Occupancy.AvailabilityRow` | app.py:90-92 | a cabin's row has exactly one column per day from start to end inclusive, and none when the window is reversed |
| `Occupancy.AvailabilityRowMeaning` | app.py:90-108 | an in-window day is occupied iff some reservation of the cabin has `check_in <= day < check_out`, and free iff none does |
| `Occupancy.AdmissibleIffNightsFree` | app.py:68-108 | when stored stays are non-empty, a non-empty stay is admissible exactly when the cabin's grid row over its nights is all free |
| `Occupancy.TurnoverScenario` | app.py:68-108 | stays [1,5) and [5,8) are both admissible and [3,6) is not; the grid over days 1..8 is occupied on 1..7 and free on 8 |
| `Tables.Filter` | app.py:145-146 | what `DELETE ... WHERE` leaves: exactly the rows the condition keeps, never more rows, and the whole table when no row matches |
| `Tables.CountWhere` | app.py:71-75 | `COUNT(*)` never exceeds the number of rows |
| `Tables.CountWherePositive` | app.py:75-77 | `COUNT(*) > 0` exactly when some row matches, the guard used by the admission and deletion checks |
| `Tables.FilterKeepsKeysDistinct` | app.py:143-146 | deleting rows never makes two remaining rows share an id |
| `Cabins.Store.constructor` | app.py:12-47 | a store opens with the registered cabins and guests, no reservations or payments, and the invariant established |
| `Cabins.Store.ReservationExists` | app.py:58-60 | the lookup finds a row exactly when a stored reservation has that id |
| `Cabins.Store.MakeReservation` | app.py:68-84 | returns true iff no stored reservation of the cabin conflicts. It then appends exactly one reservation (next id, given guest, cabin and dates), leaving earlier rows unchanged. Otherwise it changes nothing. The invariant is kept |
| `Cabins.Store.TryReserve` | app.py:219-227 | refuses `InvalidRange` iff check-out is not after check-in; otherwise `DoubleBooked` iff a conflict exists, else `Admitted` with the row appended. Non-empty stays and resolved references stay true |
| `Cabins.Store.Availability` | app.py:86-110 | a fresh grid with one row per cabin and one column per day in the window. Each cell equals that cabin's `AvailabilityRow` cell. The store is not written |
| `Cabins.Store.RecordPayment` | app.py:62-66 | appends exactly one payment with the next id, the reservation id, the method and the given date. Nothing else changes |
| `Cabins.Store.DeleteCabin` | app.py:122-130 | returns false and changes nothing iff some reservation references the cabin. Otherwise it removes exactly the cabins with that id and leaves reservations, guests and payments untouched. Resolved references stay resolved |
| `Cabins.Store.DeleteGuest` | app.py:132-141 | the same guard and removal for guests |
| `Cabins.Store.DeleteReservation` | app.py:143-148 | always returns true. It removes exactly the payments of that reservation and the reservation itself; `ReservationExists` is then false. Other rows are unchanged and the invariant is kept |

`Cabins.TurnoverClient` and `Cabins.TurnoverGrid` replay the turnover scenario
through the store's methods. They show that the contracts above are strong
enough for a caller to predict every outcome and grid cell.

## Left out

- The SQLite connection, the schema DDL of `crear_tablas` and the `commit` calls are replaced by in-memory sequences.
- Foreign keys are not enforced by SQLite unless enabled. The model states them as `ReferencesResolve()` and does not make them part of `Valid()`.
- Registering cabins and guests has no function in `app.py`, so the store is opened with its cabins and guests.
- The check-then-insert race between concurrent admissions is not modelled. It is a storage-isolation question that a sequential model cannot express.
- Cabins.Store.Availability: the model indexes grid rows by cabin position. The source keys rows by cabin name, so two cabins with the same name share one row and each one's reservations show on both.
- Cabins.Store.Availability: the model indexes columns by day offset. The source labels columns `%d/%m`, so a reservation a year away from a window day can mark that day, and a window longer than a year repeats labels.
- The pandas DataFrame, `pd.date_range`, the cell glyphs and the column labels are abstracted to `array2<Cell>` and day numbers.
- A payment's `REAL` amount (floating point) is not kept. The clock read `datetime.now()` in `registrar_pago` becomes a `date` parameter.
- The user-facing messages returned next to the booleans of the `borrar_*` functions are not modelled.
- The date pickers' minimum values (check-in not before today, check-out at least a day later) are user-interface constraints. Only the explicit `check_in < check_out` branch is modelled.
- `obtener_cabanas` and `obtener_huespedes` (plain listings), `mostrar_reservas` (a join for display), the login form and the rest of the Streamlit user interface are not modelled.
