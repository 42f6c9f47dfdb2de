/**
 * `CompleteHotelSystem`: the room table and the pending quote as fields,
 * `book_room` as the one write to the table, and `process_user_query` as
 * the per-turn dispatcher, proved to take exactly the turn that
 * `Booking.Turn` describes.
 */
module HotelSystem {
  import opened Wrappers
  import opened Rooms
  import opened Catalog
  import opened Text
  import opened Classifier
  import opened Responses
  import opened Booking

  class CompleteHotelSystem {
    var rooms: seq<Room>
    var currentBooking: Option<Pending>

    ghost predicate Valid()
      reads this
    {
      PendingValid(State(rooms, currentBooking))
    }

    /** A system over the loaded table, with no quote held. */
    constructor (initial: seq<Room>)
      ensures rooms == initial && currentBooking == None
      ensures Valid()
    {
      rooms := initial;
      currentBooking := None;
    }

    /** `book_room`: every row with this id becomes Booked; an unknown id changes nothing. */
    method BookRoom(roomId: int)
      modifies this`rooms
      ensures rooms == MarkBooked(old(rooms), roomId)
      ensures old(Valid()) && (currentBooking.None? || currentBooking.value.roomId != roomId) ==> Valid()
    {
      MarkBookedRows(rooms, roomId);
      rooms := MarkBooked(rooms, roomId);
    }

    /**
     * `process_user_query`: one turn of the conversation. The text is
     * lower-cased, the chain of keyword tests picks the branch, and that
     * branch runs against the current table and quote.
     */
    method ProcessUserQuery(userInput: string) returns (action: Action, message: string)
      modifies this
      ensures Turn(State(old(rooms), old(currentBooking)), userInput) == Outcome(Response(action, message), State(rooms, currentBooking))
      ensures old(Valid()) ==> Valid()
    {
      ghost var before := State(rooms, currentBooking);
      var input := Lower(userInput);
      var intent := ClassifyText(input, currentBooking.Some?);
      if PendingValid(before) {
        TransitionKeepsPendingValid(before, intent);
      }
      action, message := Dispatch(intent);
    }

    /** The chain of keyword tests of `process_user_query`, on the lower-cased text. */
    static method ClassifyText(input: string, pending: bool) returns (intent: Intent)
      ensures intent == Classify(input, pending)
    {
      if Contains(input, "book") {
        intent := BookRequest(RequestedType(input));
      } else if input in ConfirmWords && pending {
        intent := ConfirmBooking;
      } else if input in CancelWords {
        intent := CancelBooking;
      } else if ContainsAny(input, AvailabilityWords) {
        intent := AvailabilityQuery(RequestedType(input));
      } else if ContainsAny(input, PriceWords) {
        intent := PriceQuery(Contains(input, "cheapest"));
      } else if ContainsAny(input, FeatureWords) {
        intent := FeatureQuery;
      } else if ContainsAny(input, InfoWords) {
        intent := DetailQuery;
      } else {
        intent := NoMatch;
      }
    }

    /**
     * The body of the branch the chain picked; a query branch that finds
     * no rows falls through to the default reply.
     */
    method Dispatch(intent: Intent) returns (action: Action, message: string)
      modifies this
      ensures Transition(State(old(rooms), old(currentBooking)), intent) == Outcome(Response(action, message), State(rooms, currentBooking))
    {
      var answered := false;
      match intent {
        case BookRequest(requested) =>
          action, message := RequestBooking(requested);
          return;
        case ConfirmBooking =>
          if currentBooking.Some? {
            action, message := CommitBooking();
            return;
          }
        case CancelBooking =>
          currentBooking := None;
          action, message := Cancel, CancelledMessage;
          return;
        case AvailabilityQuery(requested) =>
          action, message := AnswerAvailability(requested);
          return;
        case PriceQuery(cheapest) =>
          answered, action, message := AnswerPrice(cheapest);
        case FeatureQuery =>
          answered, action, message := AnswerFeatures();
        case DetailQuery =>
          answered, action, message := AnswerDetails();
        case NoMatch =>
      }
      if !answered {
        action, message := Info, HelpMessage;
      }
    }

    /** The booking branch: quote the first Available room of the requested type. */
    method RequestBooking(requested: Option<RoomType>) returns (action: Action, message: string)
      modifies this`currentBooking
      ensures Outcome(Response(action, message), State(rooms, currentBooking)) == BookTransition(State(old(rooms), old(currentBooking)), requested)
    {
      if requested.Some? {
        var roomType := requested.value;
        var results := SpecificRoomType(rooms, roomType);
        if results != [] {
          var first := results[0];
          currentBooking := Some(Pending(first.id, roomType, first.price));
          action, message := BookingRequest, QuoteMessage(roomType, first.price);
        } else {
          action, message := Error, NoRoomsToBookMessage(roomType);
        }
      } else {
        action, message := Error, AskRoomTypeMessage;
      }
    }

    /** The confirmation branch: book the quoted room and clear the quote. */
    method CommitBooking() returns (action: Action, message: string)
      requires currentBooking.Some?
      modifies this
      ensures Outcome(Response(action, message), State(rooms, currentBooking)) == ConfirmTransition(State(old(rooms), old(currentBooking)))
    {
      var booking := currentBooking.value;
      BookRoom(booking.roomId);
      message := ConfirmedMessage(booking.rtype, booking.price);
      currentBooking := None;
      action := Confirmed;
    }

    /** The availability branch, for the named type or for all rooms. */
    method AnswerAvailability(requested: Option<RoomType>) returns (action: Action, message: string)
      ensures Outcome(Response(action, message), State(rooms, currentBooking)) == AvailabilityTransition(State(rooms, currentBooking), requested)
    {
      if requested.Some? {
        var roomType := requested.value;
        var results := SpecificRoomType(rooms, roomType);
        var availableCount := |results|;
        if availableCount > 0 {
          action, message := Info, AvailableOfTypeMessage(availableCount, roomType, results[0].price);
        } else {
          action, message := Info, NoAvailableOfTypeMessage(roomType);
        }
      } else {
        var results := AllAvailability(rooms);
        if results != [] {
          action, message := Info, AvailabilityListing(results);
        } else {
          action, message := Info, NoRoomsMessage;
        }
      }
    }

    /** The price branch; `answered` is false when the query found no rows. */
    method AnswerPrice(cheapest: bool) returns (answered: bool, action: Action, message: string)
      ensures answered ==> Outcome(Response(action, message), State(rooms, currentBooking)) == PriceTransition(State(rooms, currentBooking), cheapest)
      ensures !answered ==> PriceTransition(State(rooms, currentBooking), cheapest) == Help(State(rooms, currentBooking))
    {
      answered, action, message := false, Info, "";
      if cheapest {
        var result := Cheapest(rooms);
        if result.Some? {
          answered, message := true, CheapestMessage(result.value.rtype, result.value.price);
        }
      } else {
        var results := FeatureRows(rooms);
        if results != [] {
          answered, message := true, PriceListing(results);
        }
      }
    }

    /** The feature branch; `answered` is false when the query found no rows. */
    method AnswerFeatures() returns (answered: bool, action: Action, message: string)
      ensures answered ==> Outcome(Response(action, message), State(rooms, currentBooking)) == FeatureTransition(State(rooms, currentBooking))
      ensures !answered ==> FeatureTransition(State(rooms, currentBooking)) == Help(State(rooms, currentBooking))
    {
      answered, action, message := false, Info, "";
      var results := FeatureRows(rooms);
      if results != [] {
        answered, message := true, FeatureListing(results);
      }
    }

    /** The information branch; `answered` is false when the query found no rows. */
    method AnswerDetails() returns (answered: bool, action: Action, message: string)
      ensures answered ==> Outcome(Response(action, message), State(rooms, currentBooking)) == DetailTransition(State(rooms, currentBooking))
      ensures !answered ==> DetailTransition(State(rooms, currentBooking)) == Help(State(rooms, currentBooking))
    {
      answered, action, message := false, Info, "";
      var results := InfoRows(rooms);
      if results != [] {
        answered, message := true, DetailsListing(results);
      }
    }
  }
}
