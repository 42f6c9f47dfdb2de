/**
 * The structured replies of `process_user_query`: an action tag and the
 * plain-text message, with prices to two decimals and listings one row per
 * line.
 */
module Responses {
  import opened Rooms
  import opened Text
  import opened Catalog

  datatype Action = BookingRequest | Confirmed | Cancel | Info | Error

  datatype Response = Response(action: Action, message: string)

  /** The `action` string of the reply. */
  function ActionTag(a: Action): string {
    match a
    case BookingRequest => "booking_request"
    case Confirmed => "confirmed"
    case Cancel => "cancel"
    case Info => "info"
    case Error => "error"
  }

  /** Every action has its own tag. */
  lemma ActionTagInjective(a: Action, b: Action)
    ensures ActionTag(a) == ActionTag(b) <==> a == b
  {
  }

  /** The capitalised type name held in the table and printed in messages. */
  function TypeName(t: RoomType): string {
    match t
    case Single => "Single"
    case Double => "Double"
    case Suite => "Suite"
  }

  function QuoteMessage(t: RoomType, price: nat): string {
    "I found a " + TypeName(t) + " room available for " + FormatPrice(price)
      + " per night. Would you like to confirm this booking? (yes/no)"
  }

  function NoRoomsToBookMessage(t: RoomType): string {
    "I apologize, but there are no " + TypeName(t) + " rooms available at the moment."
  }

  const AskRoomTypeMessage: string := "What type of room would you like to book? (Single, Double, or Suite)"

  function ConfirmedMessage(t: RoomType, price: nat): string {
    "Great! I've booked your " + TypeName(t) + " room. "
      + "The total cost is " + FormatPrice(price) + " per night. "
      + "Thank you for choosing our hotel!"
  }

  const CancelledMessage: string := "Booking cancelled. Is there anything else I can help you with?"

  function AvailableOfTypeMessage(count: nat, t: RoomType, price: nat): string {
    "Yes, we have " + NatToString(count) + " " + TypeName(t) + " room(s) available at "
      + FormatPrice(price) + " per night."
  }

  function NoAvailableOfTypeMessage(t: RoomType): string {
    "Sorry, there are no available " + TypeName(t) + " rooms at the moment."
  }

  const NoRoomsMessage: string := "Sorry, there are no available rooms at the moment."

  const HelpMessage: string :=
    "How can I help you today? You can ask about:\n"
    + "- Room availability\n"
    + "- Room prices and features\n"
    + "- Book a room\n"
    + "- Room details and information"

  function CheapestMessage(t: RoomType, price: nat): string {
    "Our most economical option is a " + TypeName(t) + " room at " + FormatPrice(price) + " per night."
  }

  /** One line of the availability listing: `{type}: {count} room(s) at ${price}`. */
  function AvailabilityLine(g: Group): string {
    TypeName(g.rtype) + ": " + NatToString(g.count) + " room(s) at " + FormatPrice(g.price)
  }

  /** One line of the price and feature listings: `{type} (${price}): {features}`. */
  function FeatureLine(r: FeatureRow): string {
    TypeName(r.rtype) + " (" + FormatPrice(r.price) + "): " + r.features
  }

  /** One four-line entry of the room details listing. */
  function InfoEntry(r: InfoRow): string {
    TypeName(r.rtype) + " - " + FormatPrice(r.price) + "/night\n"
      + "  Available: " + NatToString(r.count) + " room(s)\n"
      + "  Features: " + r.features + "\n"
      + "  Max Occupancy: " + NatToString(r.maxOccupancy) + " people"
  }

  function AvailabilityLines(gs: seq<Group>): seq<string> {
    seq(|gs|, i requires 0 <= i < |gs| => AvailabilityLine(gs[i]))
  }

  function FeatureLines(rows: seq<FeatureRow>): seq<string> {
    seq(|rows|, i requires 0 <= i < |rows| => FeatureLine(rows[i]))
  }

  function InfoEntries(rows: seq<InfoRow>): seq<string> {
    seq(|rows|, i requires 0 <= i < |rows| => InfoEntry(rows[i]))
  }

  function AvailabilityListing(gs: seq<Group>): string {
    "Available rooms:\n" + JoinLines(AvailabilityLines(gs))
  }

  function PriceListing(rows: seq<FeatureRow>): string {
    "Room prices and features:\n" + JoinLines(FeatureLines(rows))
  }

  function FeatureListing(rows: seq<FeatureRow>): string {
    "Room features:\n" + JoinLines(FeatureLines(rows))
  }

  function DetailsListing(rows: seq<InfoRow>): string {
    "Room Details:\n" + JoinLines(InfoEntries(rows))
  }

  lemma TypeNameNoNewline(t: RoomType)
    ensures NoNewline(TypeName(t))
  {
  }

  lemma FeaturesNoNewline(t: RoomType)
    ensures NoNewline(Features(t))
  {
  }

  lemma AvailabilityLineNoNewline(g: Group)
    ensures NoNewline(AvailabilityLine(g))
  {
    NatToStringNoNewline(g.count);
    FormatPriceNoNewline(g.price);
    TypeNameNoNewline(g.rtype);
  }

  lemma FeatureLineNoNewline(r: FeatureRow)
    requires NoNewline(r.features)
    ensures NoNewline(FeatureLine(r))
  {
    FormatPriceNoNewline(r.price);
    TypeNameNoNewline(r.rtype);
  }

  /**
   * The availability listing is its header line followed by exactly one
   * line per group, in the groups' order.
   */
  lemma AvailabilityListingLines(gs: seq<Group>)
    requires gs != []
    ensures SplitLines(AvailabilityListing(gs)) == ["Available rooms:"] + AvailabilityLines(gs)
  {
    var lines := AvailabilityLines(gs);
    forall i | 0 <= i < |lines| ensures NoNewline(lines[i]) {
      AvailabilityLineNoNewline(gs[i]);
    }
    SplitJoin(lines);
    assert AvailabilityListing(gs) == "Available rooms:" + "\n" + JoinLines(lines);
    SplitLinesAppend("Available rooms:", JoinLines(lines));
  }

  /**
   * The price and the feature listings are their header line followed by
   * exactly one line per row, as long as no features text spans lines
   * (true of the fixed features table).
   */
  lemma FeatureListingLines(rows: seq<FeatureRow>)
    requires rows != []
    requires forall i :: 0 <= i < |rows| ==> NoNewline(rows[i].features)
    ensures SplitLines(PriceListing(rows)) == ["Room prices and features:"] + FeatureLines(rows)
    ensures SplitLines(FeatureListing(rows)) == ["Room features:"] + FeatureLines(rows)
  {
    var lines := FeatureLines(rows);
    forall i | 0 <= i < |lines| ensures NoNewline(lines[i]) {
      FeatureLineNoNewline(rows[i]);
    }
    SplitJoin(lines);
    assert PriceListing(rows) == "Room prices and features:" + "\n" + JoinLines(lines);
    assert FeatureListing(rows) == "Room features:" + "\n" + JoinLines(lines);
    SplitLinesAppend("Room prices and features:", JoinLines(lines));
    SplitLinesAppend("Room features:", JoinLines(lines));
  }
}
