/**
 * The booking state machine of `process_user_query`, as a function from the
 * session state (room table and pending quote) and the classified intent to
 * the reply and the next state, with the consistency rules it keeps.
 */
module Booking {
  import opened Wrappers
  import opened Rooms
  import opened Catalog
  import opened Text
  import opened Classifier
  import opened Responses

  /** `current_booking`: a quote offered but not yet committed. */
  datatype Pending = Pending(roomId: int, rtype: RoomType, price: nat)

  /** What a turn may read and change: the room table and the pending quote. */
  datatype State = State(rooms: seq<Room>, pending: Option<Pending>)

  datatype Outcome = Outcome(response: Response, state: State)

  /** The default help reply, which `process_user_query` also gives when a query finds no rows. */
  function Help(st: State): Outcome {
    Outcome(Response(Info, HelpMessage), st)
  }

  /** A booking request for the requested type, if the text named one. */
  function BookTransition(st: State, requested: Option<RoomType>): Outcome {
    if requested.None? then
      Outcome(Response(Error, AskRoomTypeMessage), st)
    else
      var t := requested.value;
      var rows := SpecificRoomType(st.rooms, t);
      if rows != [] then
        Outcome(Response(BookingRequest, QuoteMessage(t, rows[0].price)),
                st.(pending := Some(Pending(rows[0].id, t, rows[0].price))))
      else
        Outcome(Response(Error, NoRoomsToBookMessage(t)), st)
  }

  /** Committing the held quote; without one the turn ends in the help text. */
  function ConfirmTransition(st: State): Outcome {
    if st.pending.Some? then
      var p := st.pending.value;
      Outcome(Response(Confirmed, ConfirmedMessage(p.rtype, p.price)),
              State(MarkBooked(st.rooms, p.roomId), None))
    else
      Help(st)
  }

  /** An availability question, for one type or for all rooms. */
  function AvailabilityTransition(st: State, requested: Option<RoomType>): Outcome {
    if requested.Some? then
      var t := requested.value;
      var rows := SpecificRoomType(st.rooms, t);
      if |rows| > 0 then
        Outcome(Response(Info, AvailableOfTypeMessage(|rows|, t, rows[0].price)), st)
      else
        Outcome(Response(Info, NoAvailableOfTypeMessage(t)), st)
    else
      var gs := AllAvailability(st.rooms);
      if gs != [] then Outcome(Response(Info, AvailabilityListing(gs)), st)
      else Outcome(Response(Info, NoRoomsMessage), st)
  }

  /** A price question: the cheapest room, or the prices with their features. */
  function PriceTransition(st: State, cheapest: bool): Outcome {
    if cheapest then
      var c := Cheapest(st.rooms);
      if c.Some? then Outcome(Response(Info, CheapestMessage(c.value.rtype, c.value.price)), st)
      else Help(st)
    else
      var rows := FeatureRows(st.rooms);
      if rows != [] then Outcome(Response(Info, PriceListing(rows)), st) else Help(st)
  }

  function FeatureTransition(st: State): Outcome {
    var rows := FeatureRows(st.rooms);
    if rows != [] then Outcome(Response(Info, FeatureListing(rows)), st) else Help(st)
  }

  function DetailTransition(st: State): Outcome {
    var rows := InfoRows(st.rooms);
    if rows != [] then Outcome(Response(Info, DetailsListing(rows)), st) else Help(st)
  }

  /** One turn of the state machine for an already classified intent. */
  function Transition(st: State, intent: Intent): Outcome {
    match intent
    case BookRequest(requested) => BookTransition(st, requested)
    case ConfirmBooking => ConfirmTransition(st)
    case CancelBooking => Outcome(Response(Cancel, CancelledMessage), st.(pending := None))
    case AvailabilityQuery(requested) => AvailabilityTransition(st, requested)
    case PriceQuery(cheapest) => PriceTransition(st, cheapest)
    case FeatureQuery => FeatureTransition(st)
    case DetailQuery => DetailTransition(st)
    case NoMatch => Help(st)
  }

  /** A whole turn: lower-case the text as received (no trimming), classify it, take the transition. */
  function Turn(st: State, input: string): Outcome {
    Transition(st, Classify(Lower(input), st.pending.Some?))
  }

  /**
   * The quote, when there is one, names an Available room of the table with
   * the quoted type and price.
   */
  ghost predicate PendingValid(st: State) {
    st.pending.Some? ==>
      exists i :: 0 <= i < |st.rooms| &&
        st.rooms[i] == Room(st.pending.value.roomId, st.pending.value.rtype, st.pending.value.price, Available)
  }

  predicate IsQuery(intent: Intent) {
    intent.AvailabilityQuery? || intent.PriceQuery? || intent.FeatureQuery? || intent.DetailQuery? || intent.NoMatch?
  }

  // ---------------------------------------------------------------------------
  // Booking requests

  /**
   * With an Available room of the requested type, the quote becomes the
   * first such room of the table (its id, the type and its price), the reply
   * quotes that price, and the table is unchanged.
   */
  lemma BookRequestQuotes(st: State, t: RoomType, j: nat)
    requires FirstAvailableOfType(st.rooms, t) == Some(j)
    ensures Transition(st, BookRequest(Some(t)))
         == Outcome(Response(BookingRequest, QuoteMessage(t, st.rooms[j].price)),
                    State(st.rooms, Some(Pending(st.rooms[j].id, t, st.rooms[j].price))))
  {
    SpecificRoomTypeFirst(st.rooms, t);
  }

  /** With no Available room of the requested type, the reply is an error and nothing changes. */
  lemma BookRequestNoRoom(st: State, t: RoomType)
    requires forall j :: 0 <= j < |st.rooms| ==> !AvailableOfType(st.rooms[j], t)
    ensures Transition(st, BookRequest(Some(t))) == Outcome(Response(Error, NoRoomsToBookMessage(t)), st)
  {
  }

  /** A booking text that names no room type is asked again; nothing changes. */
  lemma BookRequestNoType(st: State)
    ensures Transition(st, BookRequest(None)) == Outcome(Response(Error, AskRoomTypeMessage), st)
  {
  }

  /** A new quote replaces the one held; a failed request keeps it. */
  lemma BookRequestOverwrites(st: State, t: RoomType)
    ensures var o := Transition(st, BookRequest(Some(t)));
      o.state.rooms == st.rooms
      && (o.response.action == BookingRequest <==> CountAvailableOfType(st.rooms, t) > 0)
      && (o.response.action == BookingRequest ==> o.state.pending.Some? && o.state.pending.value.rtype == t)
      && (o.response.action != BookingRequest ==> o.state.pending == st.pending)
  {
  }

  // ---------------------------------------------------------------------------
  // Confirmation and cancellation

  /**
   * Confirming commits the quoted room: every row with its id is Booked,
   * every other row is unchanged, the quote is cleared and the reply states
   * the quoted type and price. Availability is not checked again.
   */
  lemma ConfirmCommits(st: State, p: Pending)
    requires st.pending == Some(p)
    ensures var o := Transition(st, ConfirmBooking);
      o.response == Response(Confirmed, ConfirmedMessage(p.rtype, p.price))
      && o.state.pending == None
      && |o.state.rooms| == |st.rooms|
      && (forall i :: 0 <= i < |st.rooms| && st.rooms[i].id == p.roomId ==>
            o.state.rooms[i] == st.rooms[i].(status := Booked))
      && (forall i :: 0 <= i < |st.rooms| && st.rooms[i].id != p.roomId ==> o.state.rooms[i] == st.rooms[i])
  {
    MarkBookedRows(st.rooms, p.roomId);
  }

  /**
   * In a table with unique ids, after confirming a valid quote the
   * Available rooms of the quoted type are one fewer, and those of every
   * other type as many as before.
   */
  lemma ConfirmLeavesOneFewer(st: State, p: Pending, t: RoomType)
    requires UniqueIds(st.rooms)
    requires st.pending == Some(p) && PendingValid(st)
    ensures var after := Transition(st, ConfirmBooking).state.rooms;
      CountAvailableOfType(after, t) == CountAvailableOfType(st.rooms, t) - (if t == p.rtype then 1 else 0)
      && |SpecificRoomType(after, t)| == |SpecificRoomType(st.rooms, t)| - (if t == p.rtype then 1 else 0)
  {
    var j :| 0 <= j < |st.rooms| && st.rooms[j] == Room(p.roomId, p.rtype, p.price, Available);
    MarkBookedCount(st.rooms, j, t);
  }

  /** Cancelling clears the quote, held or not, and leaves the table as it was. */
  lemma CancelClears(st: State)
    ensures Transition(st, CancelBooking) == Outcome(Response(Cancel, CancelledMessage), State(st.rooms, None))
  {
  }

  // ---------------------------------------------------------------------------
  // Queries

  /** The availability, price, feature, information and help replies change nothing. */
  lemma QueriesChangeNothing(st: State, intent: Intent)
    requires IsQuery(intent)
    ensures Transition(st, intent).state == st
    ensures Transition(st, intent).response.action == Info
  {
  }

  /** The state after a sequence of classified turns. */
  function Run(st: State, intents: seq<Intent>): State
    decreases intents
  {
    if intents == [] then st else Run(Transition(st, intents[0]).state, intents[1..])
  }

  /** Any number of query turns leave the table and the quote as they were. */
  lemma {:induction false} QueriesKeepState(st: State, intents: seq<Intent>)
    requires forall i :: 0 <= i < |intents| ==> IsQuery(intents[i])
    ensures Run(st, intents) == st
  {
    if intents != [] {
      QueriesChangeNothing(st, intents[0]);
      QueriesKeepState(st, intents[1..]);
    }
  }

  /**
   * A quote survives any number of query turns: confirming afterwards books
   * exactly the room first quoted, at the quoted price.
   */
  lemma QuoteSurvivesQueries(st: State, t: RoomType, j: nat, queries: seq<Intent>)
    requires FirstAvailableOfType(st.rooms, t) == Some(j)
    requires forall i :: 0 <= i < |queries| ==> IsQuery(queries[i])
    ensures var quoted := Transition(st, BookRequest(Some(t))).state;
      var o := Transition(Run(quoted, queries), ConfirmBooking);
      o.response == Response(Confirmed, ConfirmedMessage(t, st.rooms[j].price))
      && o.state == State(MarkBooked(st.rooms, st.rooms[j].id), None)
  {
    BookRequestQuotes(st, t, j);
    QueriesKeepState(Transition(st, BookRequest(Some(t))).state, queries);
  }

  /**
   * Asking about a named type reports the number of its Available rooms at
   * the price of its first Available room, or that there is none.
   */
  lemma AvailabilityForType(st: State, t: RoomType)
    ensures var o := Transition(st, AvailabilityQuery(Some(t)));
      o.state == st && o.response.action == Info
      && (CountAvailableOfType(st.rooms, t) == 0 ==> o.response.message == NoAvailableOfTypeMessage(t))
      && (forall j :: FirstAvailableOfType(st.rooms, t) == Some(j) ==>
            o.response.message == AvailableOfTypeMessage(CountAvailableOfType(st.rooms, t), t, st.rooms[j].price))
  {
    SpecificRoomTypeFirst(st.rooms, t);
  }

  /** Asking about availability in general lists the groups, or says that no room is free. */
  lemma AvailabilityForAll(st: State)
    ensures var o := Transition(st, AvailabilityQuery(None));
      o.state == st && o.response.action == Info
      && ((forall r :: r in st.rooms ==> !IsAvailable(r)) ==> o.response.message == NoRoomsMessage)
      && ((exists r :: r in st.rooms && IsAvailable(r)) ==>
            o.response.message == AvailabilityListing(AllAvailability(st.rooms)))
  {
    AllAvailabilityGroups(st.rooms);
    GroupingEmpty(AllAvailability(st.rooms), st.rooms);
  }

  /**
   * With no Available room, the cheapest, price, feature and detail queries
   * fall through to the help text, as does a text no rule matches.
   */
  lemma FallsThroughToHelp(st: State, intent: Intent)
    requires intent.PriceQuery? || intent.FeatureQuery? || intent.DetailQuery? || intent.NoMatch?
    requires forall r :: r in st.rooms ==> !IsAvailable(r)
    ensures Transition(st, intent) == Help(st)
  {
    GroupAvailableIsGrouping(st.rooms);
    AllAvailabilityGroups(st.rooms);
    GroupingEmpty(GroupAvailable(st.rooms), st.rooms);
    GroupingEmpty(AllAvailability(st.rooms), st.rooms);
  }

  /** With some room Available, the cheapest query names the cheapest room and its price. */
  lemma CheapestAnswered(st: State)
    requires exists r :: r in st.rooms && IsAvailable(r)
    ensures Cheapest(st.rooms).Some?
    ensures PriceTransition(st, true)
         == Outcome(Response(Info, CheapestMessage(Cheapest(st.rooms).value.rtype, Cheapest(st.rooms).value.price)), st)
  {
  }

  /** With some room Available, the price query lists the prices with their features. */
  lemma PriceListingAnswered(st: State)
    requires exists r :: r in st.rooms && IsAvailable(r)
    ensures PriceTransition(st, false) == Outcome(Response(Info, PriceListing(FeatureRows(st.rooms))), st)
  {
    FeatureRowsEmpty(st.rooms);
  }

  /** With some room Available, the feature query lists the features. */
  lemma FeatureListingAnswered(st: State)
    requires exists r :: r in st.rooms && IsAvailable(r)
    ensures FeatureTransition(st) == Outcome(Response(Info, FeatureListing(FeatureRows(st.rooms))), st)
  {
    FeatureRowsEmpty(st.rooms);
  }

  /** With some room Available, the information query lists the room details. */
  lemma DetailsAnswered(st: State)
    requires exists r :: r in st.rooms && IsAvailable(r)
    ensures DetailTransition(st) == Outcome(Response(Info, DetailsListing(InfoRows(st.rooms))), st)
  {
    AllAvailabilityGroups(st.rooms);
    GroupingEmpty(AllAvailability(st.rooms), st.rooms);
  }

  // ---------------------------------------------------------------------------
  // Invariants of a turn

  /** Every transition keeps the quote pointing at an Available room of the table. */
  lemma TransitionKeepsPendingValid(st: State, intent: Intent)
    requires PendingValid(st)
    ensures PendingValid(Transition(st, intent).state)
  {
    match intent
    case BookRequest(Some(t)) =>
      var rows := SpecificRoomType(st.rooms, t);
      if rows != [] {
        var j :| 0 <= j < |st.rooms| && AvailableOfType(st.rooms[j], t)
          && rows[0] == RoomRow(st.rooms[j].id, st.rooms[j].price)
          && forall i :: 0 <= i < j ==> !AvailableOfType(st.rooms[i], t);
        assert st.rooms[j] == Room(rows[0].id, t, rows[0].price, Available);
      }
    case _ =>
  }

  /**
   * A turn changes no room's id, type or price, only ever turns an Available
   * room into a Booked one, and changes the table only when it confirms; the
   * quote changes only on a new quote, a confirmation or a cancellation.
   */
  lemma TurnOnlyBooks(st: State, input: string)
    ensures var after := Turn(st, input).state.rooms;
      |after| == |st.rooms|
      && (forall i :: 0 <= i < |after| ==> after[i] == st.rooms[i] || after[i] == st.rooms[i].(status := Booked))
      && (after != st.rooms ==> Turn(st, input).response.action == Confirmed)
    ensures var o := Turn(st, input);
      o.state.pending != st.pending ==>
        o.response.action == BookingRequest || o.response.action == Confirmed || o.response.action == Cancel
  {
    MarkBookedRows(st.rooms, if st.pending.Some? then st.pending.value.roomId else 0);
  }

  /**
   * A turn confirms exactly when the lower-cased text is one of yes,
   * confirm, okay, sure and a quote is held.
   */
  lemma ConfirmedExactly(st: State, input: string)
    ensures Turn(st, input).response.action == Confirmed <==> Lower(input) in ConfirmWords && st.pending.Some?
  {
    ConfirmExactly(Lower(input), st.pending.Some?);
  }

  /** A text holding "book" (in any case) only ever quotes or asks again, and never touches the table. */
  lemma BookTextNeverCommits(st: State, input: string)
    requires Contains(Lower(input), "book")
    ensures var o := Turn(st, input);
      (o.response.action == BookingRequest || o.response.action == Error) && o.state.rooms == st.rooms
  {
  }
}
