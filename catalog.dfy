/**
 * The query catalog of `CompleteHotelSystem.get_query_by_type`: the six
 * named read templates, each modelled as a function from the room table to
 * the rows the query returns, and the name lookup with its empty fallback.
 */
module Catalog {
  import opened Wrappers
  import opened Rooms

  /** A row of `check_specific_room_type`: (id, price). */
  datatype RoomRow = RoomRow(id: int, price: nat)

  /** A (type, price) group with its number of Available rooms. */
  datatype Group = Group(rtype: RoomType, price: nat, count: nat)

  /** The row of `cheapest_available`: (type, price). */
  datatype PriceRow = PriceRow(rtype: RoomType, price: nat)

  /** A row of `room_features`: (type, price, features). */
  datatype FeatureRow = FeatureRow(rtype: RoomType, price: nat, features: string)

  /** A row of `all_room_info`: (type, price, available_rooms, features, max_occupancy). */
  datatype InfoRow = InfoRow(rtype: RoomType, price: nat, count: nat, features: string, maxOccupancy: nat)

  /** The fixed type-to-features table of the `CASE` expressions. */
  function Features(t: RoomType): string {
    match t
    case Suite => "King bed, living area, mini bar, workspace"
    case Double => "Two queen beds, workspace"
    case Single => "One queen bed, workspace"
  }

  /** The fixed type-to-max-occupancy table of `all_room_info`. */
  function MaxOccupancy(t: RoomType): nat {
    match t
    case Suite => 4
    case Double => 2
    case Single => 1
  }

  // ---------------------------------------------------------------------------
  // Template names

  /** The six templates; the function that gives each one's rows follows its name. */
  datatype Query =
    | CheckAllAvailability   // AllAvailability
    | CheckSpecificRoomType  // SpecificRoomType
    | PriceRange             // PriceRangeGroups
    | CheapestAvailable      // Cheapest
    | RoomFeatures           // FeatureRows
    | AllRoomInfo            // InfoRows

  function QueryName(q: Query): string {
    match q
    case CheckAllAvailability => "check_all_availability"
    case CheckSpecificRoomType => "check_specific_room_type"
    case PriceRange => "price_range"
    case CheapestAvailable => "cheapest_available"
    case RoomFeatures => "room_features"
    case AllRoomInfo => "all_room_info"
  }

  /**
   * `get_query_by_type`: the template with the given name; `None` stands for
   * the empty query text `""` returned for every other name.
   */
  function QueryByType(name: string): (q: Option<Query>)
    ensures q.Some? ==> QueryName(q.value) == name
    ensures q.None? <==> forall k :: QueryName(k) != name
  {
    if name == "check_all_availability" then Some(CheckAllAvailability)
    else if name == "check_specific_room_type" then Some(CheckSpecificRoomType)
    else if name == "price_range" then Some(PriceRange)
    else if name == "cheapest_available" then Some(CheapestAvailable)
    else if name == "room_features" then Some(RoomFeatures)
    else if name == "all_room_info" then Some(AllRoomInfo)
    else None
  }

  lemma QueryNameRoundTrip(q: Query)
    ensures QueryByType(QueryName(q)) == Some(q)
  {
  }

  // ---------------------------------------------------------------------------
  // check_specific_room_type

  /**
   * `SELECT id, price FROM rooms WHERE type = :room_type AND availability =
   * 'Available'`; the query has no ORDER BY, so rows come in table order.
   */
  function SpecificRoomType(rooms: seq<Room>, t: RoomType): (rows: seq<RoomRow>)
    ensures |rows| == CountAvailableOfType(rooms, t)
    ensures rows == [] <==> forall j :: 0 <= j < |rooms| ==> !AvailableOfType(rooms[j], t)
    ensures forall k :: 0 <= k < |rows| ==>
      exists j :: 0 <= j < |rooms| && AvailableOfType(rooms[j], t) && rows[k] == RoomRow(rooms[j].id, rooms[j].price)
    ensures rows != [] ==>
      exists j :: 0 <= j < |rooms| && AvailableOfType(rooms[j], t) && rows[0] == RoomRow(rooms[j].id, rooms[j].price)
        && forall i :: 0 <= i < j ==> !AvailableOfType(rooms[i], t)
  {
    if rooms == [] then []
    else
      var init := rooms[..|rooms| - 1];
      var last := rooms[|rooms| - 1];
      var prev := SpecificRoomType(init, t);
      assert forall j :: 0 <= j < |init| ==> init[j] == rooms[j];
      if AvailableOfType(last, t) then prev + [RoomRow(last.id, last.price)] else prev
  }

  /**
   * The rows keep table order: the Available room of type `t` at position
   * `j` gives the row numbered by how many such rooms come before it.
   */
  lemma {:induction false} SpecificRoomTypeOrder(rooms: seq<Room>, t: RoomType, j: nat)
    requires j < |rooms| && AvailableOfType(rooms[j], t)
    ensures CountAvailableOfType(rooms[..j], t) < |SpecificRoomType(rooms, t)|
    ensures SpecificRoomType(rooms, t)[CountAvailableOfType(rooms[..j], t)] == RoomRow(rooms[j].id, rooms[j].price)
  {
    var init := rooms[..|rooms| - 1];
    assert rooms[..|rooms| - 1] == init;
    if j < |rooms| - 1 {
      assert init[j] == rooms[j];
      assert init[..j] == rooms[..j];
      SpecificRoomTypeOrder(init, t, j);
    } else {
      assert rooms[..j] == init;
    }
  }

  /** Every Available room of type `t` has its (id, price) row. */
  lemma SpecificRoomTypeCovers(rooms: seq<Room>, t: RoomType)
    ensures forall j :: 0 <= j < |rooms| && AvailableOfType(rooms[j], t) ==>
      RoomRow(rooms[j].id, rooms[j].price) in SpecificRoomType(rooms, t)
  {
    forall j | 0 <= j < |rooms| && AvailableOfType(rooms[j], t)
      ensures RoomRow(rooms[j].id, rooms[j].price) in SpecificRoomType(rooms, t)
    {
      SpecificRoomTypeOrder(rooms, t, j);
    }
  }

  /** The first Available room of type `t` in table order, if any. */
  function FirstAvailableOfType(rooms: seq<Room>, t: RoomType): (j: Option<nat>)
    ensures j.Some? ==> (j.value < |rooms| && AvailableOfType(rooms[j.value], t)
      && forall i :: 0 <= i < j.value ==> !AvailableOfType(rooms[i], t))
    ensures j.None? <==> forall i :: 0 <= i < |rooms| ==> !AvailableOfType(rooms[i], t)
  {
    if rooms == [] then None
    else if AvailableOfType(rooms[0], t) then Some(0)
    else
      var rest := FirstAvailableOfType(rooms[1..], t);
      if rest.Some? then Some(rest.value + 1) else None
  }

  /** The first row of `check_specific_room_type` is the first matching room of the table. */
  lemma SpecificRoomTypeFirst(rooms: seq<Room>, t: RoomType)
    ensures SpecificRoomType(rooms, t) != [] <==> FirstAvailableOfType(rooms, t).Some?
    ensures FirstAvailableOfType(rooms, t).Some? ==>
      var j := FirstAvailableOfType(rooms, t).value;
      SpecificRoomType(rooms, t)[0] == RoomRow(rooms[j].id, rooms[j].price)
  {
    var rows := SpecificRoomType(rooms, t);
    var f := FirstAvailableOfType(rooms, t);
    if rows != [] {
      var j :| 0 <= j < |rooms| && AvailableOfType(rooms[j], t) && rows[0] == RoomRow(rooms[j].id, rooms[j].price)
        && forall i :: 0 <= i < j ==> !AvailableOfType(rooms[i], t);
      assert f.value == j;
    }
  }

  // ---------------------------------------------------------------------------
  // GROUP BY type, price

  predicate HasKey(g: Group, t: RoomType, p: nat) {
    g.rtype == t && g.price == p
  }

  /** The count held for the group `(t, p)`, 0 when there is no such group. */
  function CountFor(gs: seq<Group>, t: RoomType, p: nat): nat {
    if gs == [] then 0
    else if HasKey(gs[0], t, p) then gs[0].count
    else CountFor(gs[1..], t, p)
  }

  /** Adds one room of type `t` priced `p`: its group's count grows, or a new group is appended. */
  function AddRoom(gs: seq<Group>, t: RoomType, p: nat): seq<Group> {
    if gs == [] then [Group(t, p, 1)]
    else if HasKey(gs[0], t, p) then [gs[0].(count := gs[0].count + 1)] + gs[1..]
    else [gs[0]] + AddRoom(gs[1..], t, p)
  }

  /** The (type, price) groups of the Available rooms, in order of first appearance. */
  function GroupAvailable(rooms: seq<Room>): seq<Group> {
    if rooms == [] then []
    else
      var gs := GroupAvailable(rooms[..|rooms| - 1]);
      var r := rooms[|rooms| - 1];
      if IsAvailable(r) then AddRoom(gs, r.rtype, r.price) else gs
  }

  function SumCounts(gs: seq<Group>): nat {
    if gs == [] then 0 else gs[0].count + SumCounts(gs[1..])
  }

  predicate KeyAbsent(gs: seq<Group>, t: RoomType, p: nat) {
    forall g :: g in gs ==> !HasKey(g, t, p)
  }

  predicate DistinctKeys(gs: seq<Group>) {
    forall i, j :: 0 <= i < j < |gs| ==> !HasKey(gs[j], gs[i].rtype, gs[i].price)
  }

  /**
   * `gs` is the result of `GROUP BY type, price` over the Available rooms:
   * one group per key, every group's count is the (positive) number of
   * Available rooms with that key, every Available room has its group, and
   * the counts add up to the Available rooms.
   */
  ghost predicate IsGrouping(gs: seq<Group>, rooms: seq<Room>) {
    && DistinctKeys(gs)
    && (forall g :: g in gs ==> g.count == CountAvailableWithKey(rooms, g.rtype, g.price) && g.count >= 1)
    && (forall r :: r in rooms && IsAvailable(r) ==> exists g :: g in gs && HasKey(g, r.rtype, r.price))
    && SumCounts(gs) == CountAvailable(rooms)
  }

  lemma {:induction false} AddRoomCounts(gs: seq<Group>, t: RoomType, p: nat)
    ensures forall t', p' :: CountFor(AddRoom(gs, t, p), t', p') == CountFor(gs, t', p') + (if t' == t && p' == p then 1 else 0)
    ensures SumCounts(AddRoom(gs, t, p)) == SumCounts(gs) + 1
    ensures forall g :: g in AddRoom(gs, t, p) ==> g in gs || HasKey(g, t, p)
    ensures (forall g :: g in gs ==> g.count >= 1) ==> forall g :: g in AddRoom(gs, t, p) ==> g.count >= 1
  {
    if gs != [] && !HasKey(gs[0], t, p) {
      AddRoomCounts(gs[1..], t, p);
    }
  }

  lemma {:induction false} AddRoomDistinct(gs: seq<Group>, t: RoomType, p: nat)
    requires DistinctKeys(gs)
    ensures DistinctKeys(AddRoom(gs, t, p))
  {
    if gs != [] && !HasKey(gs[0], t, p) {
      var rest := AddRoom(gs[1..], t, p);
      AddRoomDistinct(gs[1..], t, p);
      AddRoomCounts(gs[1..], t, p);
      DistinctTail(gs);
      DistinctCons(gs[0], rest);
    }
  }

  /** In a sequence of groups with distinct keys, CountFor yields each group's own count. */
  lemma {:induction false} CountForMember(gs: seq<Group>, g: Group)
    requires DistinctKeys(gs) && g in gs
    ensures CountFor(gs, g.rtype, g.price) == g.count
  {
    if gs[0] != g {
      assert g in gs[1..];
      assert !HasKey(gs[0], g.rtype, g.price);
      CountForMember(gs[1..], g);
    }
  }

  lemma {:induction false} CountForPositive(gs: seq<Group>, t: RoomType, p: nat)
    requires CountFor(gs, t, p) > 0
    ensures exists g :: g in gs && HasKey(g, t, p)
  {
    if !HasKey(gs[0], t, p) {
      CountForPositive(gs[1..], t, p);
      var g :| g in gs[1..] && HasKey(g, t, p);
      assert g in gs;
    }
  }

  lemma {:induction false} GroupAvailableFacts(rooms: seq<Room>)
    ensures DistinctKeys(GroupAvailable(rooms))
    ensures forall g :: g in GroupAvailable(rooms) ==> g.count >= 1
    ensures forall t, p :: CountFor(GroupAvailable(rooms), t, p) == CountAvailableWithKey(rooms, t, p)
    ensures SumCounts(GroupAvailable(rooms)) == CountAvailable(rooms)
  {
    if rooms != [] {
      var init := rooms[..|rooms| - 1];
      var r := rooms[|rooms| - 1];
      GroupAvailableFacts(init);
      if IsAvailable(r) {
        AddRoomCounts(GroupAvailable(init), r.rtype, r.price);
        AddRoomDistinct(GroupAvailable(init), r.rtype, r.price);
      }
    }
  }

  /** The groups of the Available rooms are a grouping in the sense of IsGrouping. */
  lemma GroupAvailableIsGrouping(rooms: seq<Room>)
    ensures IsGrouping(GroupAvailable(rooms), rooms)
  {
    var gs := GroupAvailable(rooms);
    GroupAvailableFacts(rooms);
    forall g | g in gs
      ensures g.count == CountAvailableWithKey(rooms, g.rtype, g.price)
    {
      CountForMember(gs, g);
    }
    forall r | r in rooms && IsAvailable(r)
      ensures exists g :: g in gs && HasKey(g, r.rtype, r.price)
    {
      CountAvailableWithKeyPositive(rooms, r.rtype, r.price);
      CountForPositive(gs, r.rtype, r.price);
    }
  }

  /** Every row of a grouping is built from an Available room of the table. */
  lemma GroupingFromAvailable(gs: seq<Group>, rooms: seq<Room>, g: Group)
    requires IsGrouping(gs, rooms) && g in gs
    ensures exists r :: r in rooms && AvailableWithKey(r, g.rtype, g.price)
  {
    CountAvailableWithKeyPositive(rooms, g.rtype, g.price);
  }

  // ---------------------------------------------------------------------------
  // ORDER BY price

  predicate SortedByPrice(gs: seq<Group>) {
    forall i, j :: 0 <= i < j < |gs| ==> gs[i].price <= gs[j].price
  }

  /** Inserts `g` before the first group that is not cheaper than it. */
  function InsertByPrice(g: Group, gs: seq<Group>): seq<Group> {
    if gs == [] || g.price <= gs[0].price then [g] + gs
    else [gs[0]] + InsertByPrice(g, gs[1..])
  }

  /** Insertion sort on price; among equal prices the earlier group stays first. */
  function SortByPrice(gs: seq<Group>): seq<Group> {
    if gs == [] then [] else InsertByPrice(gs[0], SortByPrice(gs[1..]))
  }

  /** A group whose key is absent from distinct groups can be put in front of them. */
  lemma DistinctCons(g: Group, gs: seq<Group>)
    requires DistinctKeys(gs) && KeyAbsent(gs, g.rtype, g.price)
    ensures DistinctKeys([g] + gs)
  {
    var s := [g] + gs;
    forall i, j | 0 <= i < j < |s| ensures !HasKey(s[j], s[i].rtype, s[i].price) {
      if i == 0 {
        assert s[j] == gs[j - 1] && s[j] in gs;
      } else {
        assert s[i] == gs[i - 1] && s[j] == gs[j - 1];
      }
    }
  }

  /** In distinct groups the first key is absent from the rest. */
  lemma DistinctTail(gs: seq<Group>)
    requires DistinctKeys(gs) && gs != []
    ensures DistinctKeys(gs[1..]) && KeyAbsent(gs[1..], gs[0].rtype, gs[0].price)
  {
    forall x | x in gs[1..] ensures !HasKey(x, gs[0].rtype, gs[0].price) {
      var k :| 0 <= k < |gs[1..]| && gs[1..][k] == x;
      assert gs[k + 1] == x;
    }
  }

  lemma SortedCons(g: Group, gs: seq<Group>)
    requires SortedByPrice(gs) && forall x :: x in gs ==> g.price <= x.price
    ensures SortedByPrice([g] + gs)
  {
    var s := [g] + gs;
    forall i, j | 0 <= i < j < |s| ensures s[i].price <= s[j].price {
      if i == 0 {
        assert s[j] == gs[j - 1] && s[j] in gs;
      } else {
        assert s[i] == gs[i - 1] && s[j] == gs[j - 1];
      }
    }
  }

  lemma {:induction false} InsertByPriceMembers(g: Group, gs: seq<Group>)
    ensures multiset(InsertByPrice(g, gs)) == multiset{g} + multiset(gs)
    ensures forall x :: x in InsertByPrice(g, gs) <==> x == g || x in gs
    ensures SumCounts(InsertByPrice(g, gs)) == g.count + SumCounts(gs)
  {
    if gs != [] && g.price > gs[0].price {
      InsertByPriceMembers(g, gs[1..]);
      assert gs == [gs[0]] + gs[1..];
    }
  }

  lemma {:induction false} InsertByPriceSorted(g: Group, gs: seq<Group>)
    requires SortedByPrice(gs)
    ensures SortedByPrice(InsertByPrice(g, gs))
  {
    if gs == [] || g.price <= gs[0].price {
      SortedCons(g, gs);
    } else {
      var rest := InsertByPrice(g, gs[1..]);
      InsertByPriceSorted(g, gs[1..]);
      InsertByPriceMembers(g, gs[1..]);
      forall x | x in rest ensures gs[0].price <= x.price {
        if x != g {
          var k :| 0 <= k < |gs[1..]| && gs[1..][k] == x;
          assert gs[k + 1] == x;
        }
      }
      SortedCons(gs[0], rest);
    }
  }

  lemma {:induction false} InsertByPriceDistinct(g: Group, gs: seq<Group>)
    requires DistinctKeys(gs) && KeyAbsent(gs, g.rtype, g.price)
    ensures DistinctKeys(InsertByPrice(g, gs))
  {
    if gs == [] || g.price <= gs[0].price {
      DistinctCons(g, gs);
    } else {
      var rest := InsertByPrice(g, gs[1..]);
      DistinctTail(gs);
      InsertByPriceDistinct(g, gs[1..]);
      InsertByPriceMembers(g, gs[1..]);
      assert gs[0] in gs;
      DistinctCons(gs[0], rest);
    }
  }

  /** Sorting is a permutation and keeps the total count. */
  lemma {:induction false} SortByPriceMembers(gs: seq<Group>)
    ensures multiset(SortByPrice(gs)) == multiset(gs)
    ensures SumCounts(SortByPrice(gs)) == SumCounts(gs)
  {
    if gs != [] {
      SortByPriceMembers(gs[1..]);
      InsertByPriceMembers(gs[0], SortByPrice(gs[1..]));
      assert gs == [gs[0]] + gs[1..];
    }
  }

  /** Sorting orders the groups by price. */
  lemma {:induction false} SortByPriceSorted(gs: seq<Group>)
    ensures SortedByPrice(SortByPrice(gs))
  {
    if gs != [] {
      SortByPriceSorted(gs[1..]);
      InsertByPriceSorted(gs[0], SortByPrice(gs[1..]));
    }
  }

  /** Sorting keeps the keys distinct. */
  lemma {:induction false} SortByPriceDistinct(gs: seq<Group>)
    requires DistinctKeys(gs)
    ensures DistinctKeys(SortByPrice(gs))
  {
    if gs != [] {
      var rest := SortByPrice(gs[1..]);
      DistinctTail(gs);
      SortByPriceDistinct(gs[1..]);
      SortByPriceMembers(gs[1..]);
      forall x | x in rest ensures x in gs[1..] {
        assert x in multiset(rest);
      }
      InsertByPriceDistinct(gs[0], rest);
    }
  }

  /** Sorting gives a permutation ordered by price, with the same counts and distinct keys. */
  lemma SortByPriceFacts(gs: seq<Group>)
    ensures multiset(SortByPrice(gs)) == multiset(gs)
    ensures SortedByPrice(SortByPrice(gs))
    ensures SumCounts(SortByPrice(gs)) == SumCounts(gs)
    ensures DistinctKeys(gs) ==> DistinctKeys(SortByPrice(gs))
  {
    SortByPriceMembers(gs);
    SortByPriceSorted(gs);
    if DistinctKeys(gs) {
      SortByPriceDistinct(gs);
    }
  }

  /** A permutation of a grouping is a grouping. */
  lemma SortKeepsGrouping(gs: seq<Group>, rooms: seq<Room>)
    requires IsGrouping(gs, rooms)
    ensures IsGrouping(SortByPrice(gs), rooms)
  {
    SortByPriceFacts(gs);
    var s := SortByPrice(gs);
    forall g | g in s ensures g in gs {
      assert g in multiset(s);
    }
    forall g | g in gs ensures g in s {
      assert g in multiset(gs);
    }
  }

  // ---------------------------------------------------------------------------
  // The catalog templates

  /**
   * `check_all_availability`: the (type, price) groups of the Available
   * rooms with their counts, in ascending price.
   */
  function AllAvailability(rooms: seq<Room>): seq<Group> {
    SortByPrice(GroupAvailable(rooms))
  }

  /** `check_all_availability` is a grouping of the Available rooms, in ascending price. */
  lemma AllAvailabilityGroups(rooms: seq<Room>)
    ensures IsGrouping(AllAvailability(rooms), rooms)
    ensures SortedByPrice(AllAvailability(rooms))
  {
    GroupAvailableIsGrouping(rooms);
    SortKeepsGrouping(GroupAvailable(rooms), rooms);
    SortByPriceFacts(GroupAvailable(rooms));
  }

  /** The rooms priced within `[lo, hi]` (SQL `BETWEEN`, inclusive at both ends), in table order. */
  function InRange(rooms: seq<Room>, lo: int, hi: int): (s: seq<Room>)
    ensures forall r :: r in s <==> r in rooms && lo <= r.price <= hi
    ensures forall t, p: nat :: CountAvailableWithKey(s, t, p) == (if lo <= p <= hi then CountAvailableWithKey(rooms, t, p) else 0)
  {
    if rooms == [] then []
    else
      var init := InRange(rooms[..|rooms| - 1], lo, hi);
      var last := rooms[|rooms| - 1];
      assert rooms == rooms[..|rooms| - 1] + [last];
      if lo <= last.price <= hi then
        assert (init + [last])[..|init + [last]| - 1] == init;
        init + [last]
      else init
  }

  /**
   * `price_range(min, max)`: the groups of the Available rooms priced
   * within `[lo, hi]`, in ascending price.
   */
  function PriceRangeGroups(rooms: seq<Room>, lo: int, hi: int): seq<Group> {
    SortByPrice(GroupAvailable(InRange(rooms, lo, hi)))
  }

  /**
   * `price_range` is a grouping of the Available rooms priced within
   * `[lo, hi]`, in ascending price, and every group's price is in range.
   */
  lemma PriceRangeGroupsFacts(rooms: seq<Room>, lo: int, hi: int)
    ensures IsGrouping(PriceRangeGroups(rooms, lo, hi), InRange(rooms, lo, hi))
    ensures SortedByPrice(PriceRangeGroups(rooms, lo, hi))
    ensures forall g :: g in PriceRangeGroups(rooms, lo, hi) ==> lo <= g.price <= hi
  {
    var inRange := InRange(rooms, lo, hi);
    GroupAvailableIsGrouping(inRange);
    SortKeepsGrouping(GroupAvailable(inRange), inRange);
    SortByPriceFacts(GroupAvailable(inRange));
    var gs := PriceRangeGroups(rooms, lo, hi);
    forall g | g in gs ensures lo <= g.price <= hi {
      GroupingFromAvailable(gs, inRange, g);
    }
  }

  /**
   * `cheapest_available`: at most one row, absent exactly when no room is
   * Available, otherwise an Available room no dearer than any other.
   */
  function Cheapest(rooms: seq<Room>): (c: Option<PriceRow>)
    ensures c.None? <==> forall r :: r in rooms ==> !IsAvailable(r)
    ensures c.Some? ==> exists r :: r in rooms && IsAvailable(r) && c.value == PriceRow(r.rtype, r.price)
    ensures c.Some? ==> forall r :: r in rooms && IsAvailable(r) ==> c.value.price <= r.price
  {
    if rooms == [] then None
    else
      var best := Cheapest(rooms[..|rooms| - 1]);
      var last := rooms[|rooms| - 1];
      assert rooms == rooms[..|rooms| - 1] + [last];
      if IsAvailable(last) && (best.None? || last.price < best.value.price) then Some(PriceRow(last.rtype, last.price))
      else best
  }

  /**
   * `room_features`: one row per (type, price) group of the Available rooms
   * with the features of its type; the query has no ORDER BY, so groups come
   * in order of first appearance in the table.
   */
  function FeatureRows(rooms: seq<Room>): (rows: seq<FeatureRow>)
    ensures |rows| == |GroupAvailable(rooms)|
    ensures forall i :: 0 <= i < |rows| ==>
      HasKey(GroupAvailable(rooms)[i], rows[i].rtype, rows[i].price) && rows[i].features == Features(rows[i].rtype)
  {
    var gs := GroupAvailable(rooms);
    seq(|gs|, i requires 0 <= i < |gs| => FeatureRow(gs[i].rtype, gs[i].price, Features(gs[i].rtype)))
  }

  /** Every row of `room_features` is built from an Available room of the table. */
  lemma FeatureRowsFromAvailable(rooms: seq<Room>)
    ensures forall row :: row in FeatureRows(rooms) ==>
      exists r :: r in rooms && AvailableWithKey(r, row.rtype, row.price)
  {
    var gs := GroupAvailable(rooms);
    var rows := FeatureRows(rooms);
    GroupAvailableIsGrouping(rooms);
    forall row | row in rows
      ensures exists r :: r in rooms && AvailableWithKey(r, row.rtype, row.price)
    {
      var i :| 0 <= i < |rows| && rows[i] == row;
      GroupingFromAvailable(gs, rooms, gs[i]);
    }
  }

  /** Every Available room has its (type, price) row in `room_features`. */
  lemma FeatureRowsCover(rooms: seq<Room>)
    ensures forall r :: r in rooms && IsAvailable(r) ==>
      exists row :: row in FeatureRows(rooms) && row.rtype == r.rtype && row.price == r.price
  {
    var gs := GroupAvailable(rooms);
    var rows := FeatureRows(rooms);
    GroupAvailableFacts(rooms);
    forall r | r in rooms && IsAvailable(r)
      ensures exists row :: row in rows && row.rtype == r.rtype && row.price == r.price
    {
      CountAvailableWithKeyPositive(rooms, r.rtype, r.price);
      CountForPositive(gs, r.rtype, r.price);
      var g :| g in gs && HasKey(g, r.rtype, r.price);
      var k :| 0 <= k < |gs| && gs[k] == g;
      assert HasKey(gs[k], rows[k].rtype, rows[k].price);
      assert rows[k] in rows;
    }
  }

  /** No (type, price) key appears twice in `room_features`. */
  lemma FeatureRowsDistinct(rooms: seq<Room>)
    ensures forall i, j :: 0 <= i < j < |FeatureRows(rooms)| ==>
      (FeatureRows(rooms)[i].rtype, FeatureRows(rooms)[i].price) != (FeatureRows(rooms)[j].rtype, FeatureRows(rooms)[j].price)
  {
    GroupAvailableFacts(rooms);
  }

  /** `room_features` is empty exactly when no room is Available. */
  lemma FeatureRowsEmpty(rooms: seq<Room>)
    ensures FeatureRows(rooms) == [] <==> forall r :: r in rooms ==> !IsAvailable(r)
  {
    GroupAvailableIsGrouping(rooms);
    GroupingEmpty(GroupAvailable(rooms), rooms);
  }

  /**
   * `all_room_info`: the groups of `check_all_availability` in the same
   * order, each with its count, the features of its type and the maximum
   * occupancy of its type.
   */
  function InfoRows(rooms: seq<Room>): (rows: seq<InfoRow>)
    ensures |rows| == |AllAvailability(rooms)|
    ensures forall i :: 0 <= i < |rows| ==>
      var g := AllAvailability(rooms)[i];
      rows[i].rtype == g.rtype && rows[i].price == g.price && rows[i].count == g.count
    ensures forall i :: 0 <= i < |rows| ==>
      rows[i].features == Features(rows[i].rtype) && rows[i].maxOccupancy == MaxOccupancy(rows[i].rtype)
    ensures forall i, j :: 0 <= i < j < |rows| ==> rows[i].price <= rows[j].price
  {
    AllAvailabilityGroups(rooms);
    var gs := AllAvailability(rooms);
    seq(|gs|, i requires 0 <= i < |gs| =>
      InfoRow(gs[i].rtype, gs[i].price, gs[i].count, Features(gs[i].rtype), MaxOccupancy(gs[i].rtype)))
  }

  /** A grouped template is empty exactly when no room is Available. */
  lemma GroupingEmpty(gs: seq<Group>, rooms: seq<Room>)
    requires IsGrouping(gs, rooms)
    ensures gs == [] <==> forall r :: r in rooms ==> !IsAvailable(r)
  {
    if gs != [] {
      GroupingFromAvailable(gs, rooms, gs[0]);
    }
  }
}
