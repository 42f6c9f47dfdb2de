/**
 * The room table of the hotel: one row per room with its id, type, nightly
 * price (in cents) and availability, and the single write the system makes
 * to it, the UPDATE of `book_room`.
 */
module Rooms {
  datatype RoomType = Single | Double | Suite

  datatype Status = Available | Booked

  /** One row of the `rooms` table; `price` is in cents. */
  datatype Room = Room(id: int, rtype: RoomType, price: nat, status: Status)

  predicate IsAvailable(r: Room) {
    r.status == Available
  }

  /** An Available room of type `t`: a row of `check_specific_room_type`. */
  predicate AvailableOfType(r: Room, t: RoomType) {
    IsAvailable(r) && r.rtype == t
  }

  /** An Available room in the (type, price) group `(t, p)`. */
  predicate AvailableWithKey(r: Room, t: RoomType, p: nat) {
    IsAvailable(r) && r.rtype == t && r.price == p
  }

  /** Number of Available rooms. */
  function CountAvailable(rooms: seq<Room>): nat {
    if rooms == [] then 0
    else CountAvailable(rooms[..|rooms| - 1]) + (if IsAvailable(rooms[|rooms| - 1]) then 1 else 0)
  }

  /** Number of Available rooms of type `t`. */
  function CountAvailableOfType(rooms: seq<Room>, t: RoomType): nat {
    if rooms == [] then 0
    else CountAvailableOfType(rooms[..|rooms| - 1], t) + (if AvailableOfType(rooms[|rooms| - 1], t) then 1 else 0)
  }

  /** Number of Available rooms of type `t` priced `p`. */
  function CountAvailableWithKey(rooms: seq<Room>, t: RoomType, p: nat): nat {
    if rooms == [] then 0
    else CountAvailableWithKey(rooms[..|rooms| - 1], t, p) + (if AvailableWithKey(rooms[|rooms| - 1], t, p) then 1 else 0)
  }

  lemma {:induction false} CountAvailableOfTypePositive(rooms: seq<Room>, t: RoomType)
    ensures CountAvailableOfType(rooms, t) > 0 <==> exists j :: 0 <= j < |rooms| && AvailableOfType(rooms[j], t)
  {
    if rooms != [] {
      var init := rooms[..|rooms| - 1];
      CountAvailableOfTypePositive(init, t);
      assert forall j :: 0 <= j < |init| ==> init[j] == rooms[j];
    }
  }

  lemma {:induction false} CountAvailableWithKeyPositive(rooms: seq<Room>, t: RoomType, p: nat)
    ensures CountAvailableWithKey(rooms, t, p) > 0 <==> exists r :: r in rooms && AvailableWithKey(r, t, p)
  {
    if rooms != [] {
      var init := rooms[..|rooms| - 1];
      CountAvailableWithKeyPositive(init, t, p);
      assert rooms == init + [rooms[|rooms| - 1]];
    }
  }

  /** The effect of `UPDATE rooms SET availability = 'Booked' WHERE id = :room_id` on one row. */
  function MarkOne(r: Room, id: int): Room {
    if r.id == id then r.(status := Booked) else r
  }

  /** The whole UPDATE of `book_room`: every row whose id is `id` becomes Booked. */
  function MarkBooked(rooms: seq<Room>, id: int): seq<Room> {
    if rooms == [] then []
    else MarkBooked(rooms[..|rooms| - 1], id) + [MarkOne(rooms[|rooms| - 1], id)]
  }

  /** Row by row: the rows with the given id are Booked, every other row is unchanged. */
  lemma {:induction false} MarkBookedRows(rooms: seq<Room>, id: int)
    ensures |MarkBooked(rooms, id)| == |rooms|
    ensures forall i :: 0 <= i < |rooms| && rooms[i].id == id ==> MarkBooked(rooms, id)[i] == rooms[i].(status := Booked)
    ensures forall i :: 0 <= i < |rooms| && rooms[i].id != id ==> MarkBooked(rooms, id)[i] == rooms[i]
  {
    if rooms != [] {
      MarkBookedRows(rooms[..|rooms| - 1], id);
    }
  }

  /** An id that no row carries leaves the table as it was (zero rows affected). */
  lemma MarkBookedUnknownId(rooms: seq<Room>, id: int)
    requires forall i :: 0 <= i < |rooms| ==> rooms[i].id != id
    ensures MarkBooked(rooms, id) == rooms
  {
    MarkBookedRows(rooms, id);
  }

  /** Booking the same id twice is the same as booking it once. */
  lemma MarkBookedIdempotent(rooms: seq<Room>, id: int)
    ensures MarkBooked(MarkBooked(rooms, id), id) == MarkBooked(rooms, id)
  {
    MarkBookedRows(rooms, id);
    MarkBookedRows(MarkBooked(rooms, id), id);
  }

  predicate UniqueIds(rooms: seq<Room>) {
    forall i, j :: 0 <= i < j < |rooms| ==> rooms[i].id != rooms[j].id
  }

  /**
   * With unique ids, booking an Available room leaves one fewer Available
   * room of its type and the same number of every other type.
   */
  lemma {:induction false} MarkBookedCount(rooms: seq<Room>, j: nat, t: RoomType)
    requires UniqueIds(rooms)
    requires j < |rooms| && IsAvailable(rooms[j])
    ensures CountAvailableOfType(MarkBooked(rooms, rooms[j].id), t)
         == CountAvailableOfType(rooms, t) - (if rooms[j].rtype == t then 1 else 0)
  {
    var n := |rooms|;
    var init := rooms[..n - 1];
    var id := rooms[j].id;
    if j == n - 1 {
      MarkBookedUnknownId(init, id);
    } else {
      MarkBookedCount(init, j, t);
    }
  }

  /** Booking never adds an Available room of any type. */
  lemma {:induction false} MarkBookedNeverFrees(rooms: seq<Room>, id: int, t: RoomType)
    ensures CountAvailableOfType(MarkBooked(rooms, id), t) <= CountAvailableOfType(rooms, t)
  {
    if rooms != [] {
      MarkBookedNeverFrees(rooms[..|rooms| - 1], id, t);
    }
  }
}
