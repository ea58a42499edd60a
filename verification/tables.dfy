/**
 The four tables of the cabin complex (cabins, guests, reservations,
 payments) as records, and the two table queries the bookkeeping uses:
 keeping the rows a `WHERE` clause does not delete, and `COUNT(*)` of the
 rows a `WHERE` clause selects.
 */
module Tables {

  /** A calendar date as a day number. The store keeps ISO `YYYY-MM-DD`
      text, whose lexical order is the chronological order of the days. */
  type Day = int

  datatype Option<+T> = None | Some(value: T)

  datatype Cabin = Cabin(id: int, name: string, capacity: int)

  datatype Guest = Guest(id: int, name: string, document: string, phone: Option<string>)

  /** A guest's claim on a cabin for the nights checkIn .. checkOut - 1. */
  datatype Reservation = Reservation(id: int, guestId: int, cabinId: int, checkIn: Day, checkOut: Day)

  /** A payment keeps only what the bookkeeping needs: the reservation it
      belongs to, how it was paid and the day it was recorded. */
  datatype Payment = Payment(id: int, reservationId: int, paidBy: string, date: Day)

  function ReservationId(r: Reservation): int { r.id }

  function PaymentId(p: Payment): int { p.id }

  /** The rows of `s` that `keep` selects, in their table order: what is
      left of a table after `DELETE ... WHERE !keep(row)`. */
  function Filter<T(!new)>(s: seq<T>, keep: T -> bool): (r: seq<T>)
    ensures |r| <= |s|
    ensures forall x :: x in r <==> x in s && keep(x)
    ensures (forall x :: x in s ==> keep(x)) ==> r == s
  {
    if s == [] then []
    else if keep(s[0]) then [s[0]] + Filter(s[1..], keep)
    else Filter(s[1..], keep)
  }

  /** `SELECT COUNT(*) ... WHERE matches(row)`. */
  function CountWhere<T>(s: seq<T>, matches: T -> bool): (n: nat)
    ensures n <= |s|
  {
    if s == [] then 0
    else (if matches(s[0]) then 1 else 0) + CountWhere(s[1..], matches)
  }

  /** The count is positive exactly when some row matches. */
  lemma {:induction false} CountWherePositive<T>(s: seq<T>, matches: T -> bool)
    ensures CountWhere(s, matches) > 0 <==> exists x :: x in s && matches(x)
  {
    if s != [] {
      CountWherePositive(s[1..], matches);
      assert s == [s[0]] + s[1..];
    }
  }

  /** No two rows of `s` share a key (a primary key column). */
  ghost predicate KeysDistinct<T>(s: seq<T>, key: T -> int)
  {
    forall i, j :: 0 <= i < j < |s| ==> key(s[i]) != key(s[j])
  }

  /** Deleting rows never makes two remaining rows share a key. */
  lemma {:induction false} FilterKeepsKeysDistinct<T(!new)>(s: seq<T>, keep: T -> bool, key: T -> int)
    requires KeysDistinct(s, key)
    ensures KeysDistinct(Filter(s, keep), key)
  {
    if s != [] {
      var rest := Filter(s[1..], keep);
      assert KeysDistinct(s[1..], key) by {
        forall i, j | 0 <= i < j < |s[1..]| ensures key(s[1..][i]) != key(s[1..][j]) {
          assert s[1..][i] == s[i + 1] && s[1..][j] == s[j + 1];
        }
      }
      FilterKeepsKeysDistinct(s[1..], keep, key);
      if keep(s[0]) {
        forall j | 0 <= j < |rest| ensures key(rest[j]) != key(s[0]) {
          assert rest[j] in s[1..];
          var m :| 0 <= m < |s[1..]| && s[1..][m] == rest[j];
          assert s[m + 1] == rest[j];
        }
        var r := [s[0]] + rest;
        forall i, j | 0 <= i < j < |r| ensures key(r[i]) != key(r[j]) {
          assert r[j] == rest[j - 1];
          if i > 0 {
            assert r[i] == rest[i - 1];
          }
        }
      }
    }
  }
}
