/**
 * The keyword intent classifier of `process_user_query`: an ordered chain
 * of substring tests on the lower-cased text in which the first rule that
 * matches decides the intent.
 */
module Classifier {
  import opened Wrappers
  import opened Rooms
  import opened Text

  datatype Intent =
    | BookRequest(requested: Option<RoomType>)
    | ConfirmBooking
    | CancelBooking
    | AvailabilityQuery(roomType: Option<RoomType>)
    | PriceQuery(cheapest: bool)
    | FeatureQuery
    | DetailQuery
    | NoMatch

  const ConfirmWords: seq<string> := ["yes", "confirm", "okay", "sure"]
  const CancelWords: seq<string> := ["no", "cancel"]
  const AvailabilityWords: seq<string> := ["available", "vacancy", "free"]
  const PriceWords: seq<string> := ["price", "cost", "rate", "cheap"]
  const FeatureWords: seq<string> := ["feature", "amenity", "include"]
  const InfoWords: seq<string> := ["info", "detail"]

  /** The lower-case keyword that names a room type in a guest's text. */
  function TypeKeyword(t: RoomType): string {
    match t
    case Single => "single"
    case Double => "double"
    case Suite => "suite"
  }

  /** The fixed order in which the room types are looked for. */
  function TypeRank(t: RoomType): nat {
    match t
    case Single => 0
    case Double => 1
    case Suite => 2
  }

  /**
   * The room type a text asks for: the first of single, double, suite, in
   * that order, whose keyword the text holds.
   */
  function RequestedType(s: string): (r: Option<RoomType>)
    ensures r.Some? ==> Contains(s, TypeKeyword(r.value))
    ensures r.Some? ==> forall t :: TypeRank(t) < TypeRank(r.value) ==> !Contains(s, TypeKeyword(t))
    ensures r.None? <==> forall t :: !Contains(s, TypeKeyword(t))
  {
    if Contains(s, "single") then Some(Single)
    else if Contains(s, "double") then Some(Double)
    else if Contains(s, "suite") then Some(Suite)
    else None
  }

  /**
   * The if/elif chain of `process_user_query` on the lower-cased text `s`;
   * `pending` says whether a booking quote is held.
   */
  function Classify(s: string, pending: bool): Intent {
    if Contains(s, "book") then BookRequest(RequestedType(s))
    else if s in ConfirmWords && pending then ConfirmBooking
    else if s in CancelWords then CancelBooking
    else if ContainsAny(s, AvailabilityWords) then AvailabilityQuery(RequestedType(s))
    else if ContainsAny(s, PriceWords) then PriceQuery(Contains(s, "cheapest"))
    else if ContainsAny(s, FeatureWords) then FeatureQuery
    else if ContainsAny(s, InfoWords) then DetailQuery
    else NoMatch
  }

  // ---------------------------------------------------------------------------
  // The same rules as an explicit priority table

  /** The classifier's rules, one per branch of the chain. */
  datatype Rule = BookRule | ConfirmRule | CancelRule | AvailabilityRule | PriceRule | FeatureRule | DetailRule

  /** When a rule fires on the text `s`, with `pending` saying whether a quote is held. */
  predicate Fires(r: Rule, s: string, pending: bool) {
    match r
    case BookRule => Contains(s, "book")
    case ConfirmRule => s in ConfirmWords && pending
    case CancelRule => s in CancelWords
    case AvailabilityRule => ContainsAny(s, AvailabilityWords)
    case PriceRule => ContainsAny(s, PriceWords)
    case FeatureRule => ContainsAny(s, FeatureWords)
    case DetailRule => ContainsAny(s, InfoWords)
  }

  /** The intent a rule yields once it fires. */
  function Yields(r: Rule, s: string): Intent {
    match r
    case BookRule => BookRequest(RequestedType(s))
    case ConfirmRule => ConfirmBooking
    case CancelRule => CancelBooking
    case AvailabilityRule => AvailabilityQuery(RequestedType(s))
    case PriceRule => PriceQuery(Contains(s, "cheapest"))
    case FeatureRule => FeatureQuery
    case DetailRule => DetailQuery
  }

  /** The rules in priority order, highest first. */
  const Rules: seq<Rule> := [BookRule, ConfirmRule, CancelRule, AvailabilityRule, PriceRule, FeatureRule, DetailRule]

  /** The intent of the first rule that fires; no rule firing gives NoMatch. */
  function FirstMatch(rules: seq<Rule>, s: string, pending: bool): Intent {
    if rules == [] then NoMatch
    else if Fires(rules[0], s, pending) then Yields(rules[0], s)
    else FirstMatch(rules[1..], s, pending)
  }

  /** The rule at position `i` decides when it fires and none before it does. */
  lemma {:induction false} FirstMatchPriority(rules: seq<Rule>, s: string, pending: bool, i: nat)
    requires i < |rules| && Fires(rules[i], s, pending)
    requires forall k :: 0 <= k < i ==> !Fires(rules[k], s, pending)
    ensures FirstMatch(rules, s, pending) == Yields(rules[i], s)
  {
    if i > 0 {
      assert !Fires(rules[0], s, pending);
      FirstMatchPriority(rules[1..], s, pending, i - 1);
    }
  }

  /** No rule firing gives NoMatch. */
  lemma {:induction false} FirstMatchNone(rules: seq<Rule>, s: string, pending: bool)
    requires forall k :: 0 <= k < |rules| ==> !Fires(rules[k], s, pending)
    ensures FirstMatch(rules, s, pending) == NoMatch
  {
    if rules != [] {
      assert !Fires(rules[0], s, pending);
      FirstMatchNone(rules[1..], s, pending);
    }
  }

  /** The chain of conditionals is the first-match reading of the priority table. */
  lemma ClassifyByRules(s: string, pending: bool)
    ensures Classify(s, pending) == FirstMatch(Rules, s, pending)
  {
    var i: nat :=
      if Contains(s, "book") then 0
      else if s in ConfirmWords && pending then 1
      else if s in CancelWords then 2
      else if ContainsAny(s, AvailabilityWords) then 3
      else if ContainsAny(s, PriceWords) then 4
      else if ContainsAny(s, FeatureWords) then 5
      else if ContainsAny(s, InfoWords) then 6
      else 7;
    if i < 7 {
      FirstMatchPriority(Rules, s, pending, i);
    } else {
      FirstMatchNone(Rules, s, pending);
    }
  }

  /** A text holding "book" is a booking request, whatever other keywords it holds. */
  lemma BookingTakesPriority(s: string, pending: bool)
    requires Contains(s, "book")
    ensures Classify(s, pending) == BookRequest(RequestedType(s))
    ensures Contains(s, "available") ==> !Classify(s, pending).AvailabilityQuery?
  {
  }

  lemma NoLetterB(s: string)
    requires 'b' !in s
    ensures !Contains(s, "book")
  {
    if Contains(s, "book") {
      ContainsFirstChar(s, "book");
    }
  }

  /** Confirmation fires exactly on one of the four words, and only with a quote held. */
  lemma ConfirmExactly(s: string, pending: bool)
    ensures Classify(s, pending) == ConfirmBooking <==> s in ConfirmWords && pending
  {
    if s in ConfirmWords {
      NoLetterB(s);
    }
  }

  /** Cancellation fires exactly on "no" or "cancel", with or without a quote held. */
  lemma CancelExactly(s: string, pending: bool)
    ensures Classify(s, pending) == CancelBooking <==> s in CancelWords
  {
    if s in CancelWords {
      NoLetterB(s);
    }
  }
}
