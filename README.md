# Hotel booking assistant — a Dafny model of `CompleteHotelSystem`

This project models the per-turn dispatcher of the rule-based hotel
booking assistant in `hotel_system.py`, and proves properties of it. It has
three parts:

- **The query catalog** (`get_query_by_type`). The six SQL read templates
  are pure functions over an abstract room table `seq<Room>`. Each template
  filters Available rooms, groups them by (type, price), counts, orders by
  price and applies `LIMIT 1` as its SQL text does. An unknown template name
  gives the empty query.
- **The keyword classifier.** This is the ordered `if`/`elif` chain of
  `process_user_query`. It runs substring tests on the lower-cased input.
  The chain is also shown to be the first-match reading of an explicit
  priority table of rules.
- **The booking state machine.** The state is the room table and
  `current_booking`, the pending quote. `book_room` is the only write to the
  table.

The pure function `Booking.Turn` specifies one turn. The class
`HotelSystem.CompleteHotelSystem` keeps the table and the quote as fields.
Its `ProcessUserQuery` method is proved to take exactly the turn that
`Turn` describes. It also keeps the invariant that a held quote names an
Available room of the table. `BookRoom` keeps that invariant only when it
books a room other than the quoted one; booking the quoted id directly,
outside `ProcessUserQuery`, leaves the quote naming a Booked room.

Modules, in dependency order:
- `Wrappers`: `Option`.
- `Rooms`: the table and the UPDATE of `book_room`.
- `Text`: lower-casing, substring tests, number and price formatting, lines.
- `Catalog`: the templates.
- `Classifier`: the keyword chain and the rule table.
- `Responses`: reply texts.
- `Booking`: the turn function and its lemmas.
- `HotelSystem`: the class.

Modelling decisions:

- **Prices are integer cents** (`nat`). `f"${price:.2f}"` becomes
  `FormatPrice`: `$`, the dollars in decimal, `.`, then exactly two cent
  digits. `ParsePrice` reads it back, so every message states the price
  exactly.
- **Room type and availability are enumerations** (`Single | Double |
  Suite`, `Available | Booked`). The messages print the capitalised type
  name that the table holds.
- **Row order.** `check_specific_room_type` and `room_features` have no
  `ORDER BY`, so the model returns their rows in table order. Groups come in
  order of first appearance.
  - The SQL has no `ORDER BY id`, so the quoted room is the *first
    Available room of the type in table order* (hotel_system.py:67-72, 151).
  - The sorted templates order by price with a stable insertion sort, so
    groups of equal price keep their table order.
- **No trimming.** `process_user_query` lower-cases the text but does not
  strip it (hotel_system.py:136). So `"yes "` is not a confirmation
  (`Classifier.ConfirmExactly`). Only `main` strips input
  (hotel_system.py:296), and `main` is not part of this model.
- **A confirmation word with no quote held** does not take the
  confirmation branch. It falls through to the later tests, which none of
  the four words meets, so the reply is the help text.
- **Fall-through to help.** A price, feature or information query that
  returns no rows leaves its `elif` branch without returning. It therefore
  ends in the default help reply. `Dispatch` models this with an `answered`
  flag.

## Model

| member | source | states |
|---|---|---|
| Rooms.MarkBookedRows | hotel_system.py:125-132 | `book_room` keeps the table length; every row with the id becomes Booked; every other row is unchanged |
| Rooms.MarkBookedUnknownId | hotel_system.py:127-131 | an id no row carries leaves the table as it was |
| Rooms.MarkBookedIdempotent | hotel_system.py:127-131 | booking the same id twice leaves the same table as booking it once |
| Rooms.MarkBookedCount | hotel_system.py:125-132 | with unique ids, booking an Available room lowers the Available count of its type by one and leaves every other type's count unchanged |
| Rooms.MarkBookedNeverFrees | hotel_system.py:127-131 | the UPDATE never raises the number of Available rooms of any type |
| Rooms.CountAvailableOfTypePositive | hotel_system.py:197-198 | the Available count of a type is positive exactly when some row is an Available room of that type |
| Catalog.QueryByType | hotel_system.py:56-123 | a found template carries the given name; the empty query is returned exactly when no template has that name |
| Catalog.QueryNameRoundTrip | hotel_system.py:58-122 | looking up the name of each of the six templates finds that template |
| Catalog.SpecificRoomType | hotel_system.py:67-72 | as many (id, price) rows as there are Available rooms of the type; each row comes from such a room; empty exactly when there is none; the first row is the first such room of the table |
| Catalog.SpecificRoomTypeCovers | hotel_system.py:67-72 | every Available room of the type has its (id, price) row |
| Catalog.SpecificRoomTypeOrder | hotel_system.py:67-72 | rows keep table order: the Available room of the type at position j gives the row numbered by how many such rooms precede it |
| Catalog.SpecificRoomTypeFirst | hotel_system.py:150-151 | the result is non-empty exactly when a first Available room of the type exists, and its first row is that room's id and price |
| Catalog.GroupAvailableIsGrouping | hotel_system.py:61-64 | the grouping by (type, price) has distinct keys; each count is the positive number of Available rooms with that key; every Available room has its group; the counts add up to the Available rooms |
| Catalog.GroupingFromAvailable | hotel_system.py:61-64 | every group of a grouping is built from an Available room of the table |
| Catalog.SortByPriceFacts | hotel_system.py:65 | `ORDER BY price` gives a permutation of the groups in non-decreasing price, with the same total count and still distinct keys |
| Catalog.SortKeepsGrouping | hotel_system.py:60-66 | ordering the groups by price keeps them a grouping of the same rooms |
| Catalog.AllAvailabilityGroups | hotel_system.py:60-66 | `check_all_availability` is a grouping of the Available rooms, in non-decreasing price |
| Catalog.InRange | hotel_system.py:78 | a room is kept exactly when min ≤ price ≤ max (`BETWEEN` is inclusive at both ends); the Available count of each (type, price) key is the table's for a price in range and 0 otherwise |
| Catalog.PriceRangeGroupsFacts | hotel_system.py:74-81 | `price_range` is a grouping of the Available rooms priced within [min, max], in non-decreasing price, and every group's price lies in range |
| Catalog.Cheapest | hotel_system.py:82-88 | `cheapest_available` is absent exactly when no room is Available; otherwise it is an Available room's type and price, and no Available room is cheaper |
| Catalog.FeatureRows | hotel_system.py:90-100 | one `room_features` row per (type, price) group, with the features of its type from the fixed table |
| Catalog.FeatureRowsFromAvailable | hotel_system.py:90-99 | every `room_features` row is built from an Available room |
| Catalog.FeatureRowsCover | hotel_system.py:90-99 | every Available room's (type, price) has a row |
| Catalog.FeatureRowsDistinct | hotel_system.py:99 | no (type, price) key appears twice |
| Catalog.FeatureRowsEmpty | hotel_system.py:90-99 | the result is empty exactly when no room is Available |
| Catalog.InfoRows | hotel_system.py:102-121 | `all_room_info` has the groups of `check_all_availability` in the same order with their counts; features and max occupancy come from the fixed tables (Suite 4, Double 2, Single 1); prices are non-decreasing |
| Catalog.GroupingEmpty | hotel_system.py:60-66 | a grouped template is empty exactly when no room is Available |
| Text.Lower | hotel_system.py:136 | lower-casing keeps the length, leaves no upper-case letter, keeps every other character and lowers each upper-case ASCII letter |
| Text.LowerIdempotent | hotel_system.py:136 | lower-casing twice is lower-casing once |
| Text.ContainsAt | hotel_system.py:140 | the substring test holds exactly when the word occurs at some position of the text |
| Text.NatToStringRoundTrip | hotel_system.py:201 | the decimal text of a count reads back to the count |
| Text.FormatPriceRoundTrip | hotel_system.py:159 | the `$D.CC` text of a price reads back to the same number of cents |
| Text.FormatPriceInjective | hotel_system.py:159 | different prices never print alike |
| Text.SplitJoin | hotel_system.py:214 | joining single-line texts with "\n" and splitting them again gives the lines back |
| Classifier.RequestedType | hotel_system.py:141-142 | the requested type is the first of single, double, suite, in that order, that the text contains; none exactly when the text holds none of them |
| Classifier.ClassifyByRules | hotel_system.py:140-251 | the `if`/`elif` chain picks the intent of the first rule in the priority table that fires |
| Classifier.FirstMatchPriority | hotel_system.py:140-251 | a rule that fires, with no earlier rule firing, decides the intent |
| Classifier.FirstMatchNone | hotel_system.py:266-274 | when no rule fires, nothing matches and the default reply follows |
| Classifier.BookingTakesPriority | hotel_system.py:140-142 | a text holding "book" is a booking request for its requested type, whatever other keywords it holds |
| Classifier.ConfirmExactly | hotel_system.py:173 | the confirmation intent is chosen exactly when the text is one of yes, confirm, okay, sure and a quote is held |
| Classifier.CancelExactly | hotel_system.py:182 | the cancellation intent is chosen exactly when the text is "no" or "cancel" |
| Responses.AvailabilityListingLines | hotel_system.py:211-214 | the availability listing is its header line followed by exactly one line per group, in the groups' order |
| Responses.FeatureListingLines | hotel_system.py:232-247 | the price listing and the feature listing are each their header line followed by exactly one line per row |
| Booking.BookRequestQuotes | hotel_system.py:144-160 | with an Available room of the requested type, the quote becomes the first such room (its id, the type, its price), the reply quotes that price, and the table is unchanged |
| Booking.BookRequestNoRoom | hotel_system.py:161-165 | with no Available room of the type, the reply is an error and neither the table nor the quote changes |
| Booking.BookRequestNoType | hotel_system.py:166-170 | a booking text naming no room type gets the error asking for the type; table and quote unchanged |
| Booking.BookRequestOverwrites | hotel_system.py:144-170 | the table never changes; the reply is a quote exactly when the type has an Available room; a quote replaces the held one; an error keeps it |
| Booking.ConfirmCommits | hotel_system.py:173-179 | confirming books every row with the quoted id, leaves every other row unchanged, clears the quote and states the quoted type and price; availability is not checked again |
| Booking.ConfirmLeavesOneFewer | hotel_system.py:173-179 | with unique ids and a valid quote, confirming leaves one fewer Available room of the quoted type and as many of every other type |
| Booking.CancelClears | hotel_system.py:182-187 | cancelling clears the quote, held or not, and leaves the table unchanged |
| Booking.QueriesChangeNothing | hotel_system.py:190-274 | the availability, price, feature, information and default replies are `info` and change neither the table nor the quote |
| Booking.QueriesKeepState | hotel_system.py:190-274 | any sequence of query turns leaves the table and the quote as they were |
| Booking.QuoteSurvivesQueries | hotel_system.py:150-179 | after a quote and any number of query turns, confirming books exactly the room first quoted at the quoted price |
| Booking.AvailabilityForType | hotel_system.py:191-207 | a named type gets its Available count at the price of its first Available room, or the "no available {type} rooms" reply; nothing changes |
| Booking.AvailabilityForAll | hotel_system.py:208-220 | with no type named, the reply lists the grouped availability, or says that no room is available exactly when none is |
| Booking.FallsThroughToHelp | hotel_system.py:223-274 | with no Available room, the cheapest, price, feature and detail queries end in the help reply, as does a text no rule matches |
| Booking.CheapestAnswered | hotel_system.py:225-231 | with some room Available, the cheapest query finds a room and replies Info with that room's type and price, state unchanged |
| Booking.PriceListingAnswered | hotel_system.py:233-238 | with some room Available, the price query replies Info with the price listing of the feature rows, state unchanged |
| Booking.FeatureListingAnswered | hotel_system.py:241-248 | with some room Available, the feature query replies Info with the feature listing, state unchanged |
| Booking.DetailsAnswered | hotel_system.py:251-264 | with some room Available, the information query replies Info with the details listing, state unchanged |
| Booking.TransitionKeepsPendingValid | hotel_system.py:150-156 | every turn keeps the quote, when one is held, naming an Available room of the table with the quoted type and price |
| Booking.TurnOnlyBooks | hotel_system.py:134-274 | a turn changes no room's id, type or price, only turns rooms to Booked, and changes the table only when it confirms; the quote changes only on a new quote, a confirmation or a cancellation |
| Booking.ConfirmedExactly | hotel_system.py:173-179 | a turn confirms exactly when the lower-cased text is one of the four confirmation words and a quote is held |
| Booking.BookTextNeverCommits | hotel_system.py:140-170 | a text holding "book" in any case only quotes or asks again, and never touches the table |
| Rooms.MarkBooked | hotel_system.py:127-131 | the UPDATE of `book_room` on the table; its effect row by row is `Rooms.MarkBookedRows` |
| Catalog.GroupAvailable | hotel_system.py:61-64 | `GROUP BY type, price` over the Available rooms with `COUNT(*)`; `Catalog.GroupAvailableIsGrouping` proves it a grouping |
| Catalog.AllAvailability | hotel_system.py:60-66 | `check_all_availability`; `Catalog.AllAvailabilityGroups` proves it a grouping of the Available rooms in non-decreasing price |
| Catalog.PriceRangeGroups | hotel_system.py:74-81 | `price_range`; `Catalog.PriceRangeGroupsFacts` proves it a sorted grouping of the in-range Available rooms |
| Catalog.Features | hotel_system.py:92-96 | the features `CASE` table, word for word; `Catalog.FeatureRows` and `Catalog.InfoRows` state that every row carries it |
| Catalog.MaxOccupancy | hotel_system.py:112-116 | the max-occupancy `CASE` table (Suite 4, Double 2, Single 1); `Catalog.InfoRows` states that every row carries it |
| Text.Contains | hotel_system.py:140 | Python's `sub in s`; `Text.ContainsAt` proves it equal to occurrence at some position |
| Text.NatToString | hotel_system.py:201 | `str(n)`: non-empty, all digits, no leading zero; `Text.NatToStringRoundTrip` reads it back |
| Text.FormatPrice | hotel_system.py:159 | `${price:.2f}` on integer cents; `Text.FormatPriceRoundTrip` and `Text.FormatPriceInjective` show it states the price exactly |
| Text.JoinLines | hotel_system.py:214 | `"\n".join`; `Text.SplitJoin` shows the lines can be read back |
| Classifier.Classify | hotel_system.py:140-251 | the chain of tests; `Classifier.ClassifyByRules`, `Classifier.BookingTakesPriority`, `Classifier.ConfirmExactly` and `Classifier.CancelExactly` state what it picks |
| Responses.ActionTagInjective | hotel_system.py:158-278 | the five `action` strings (`booking_request`, `confirmed`, `cancel`, `info`, `error`) are pairwise distinct, so the tag names the action |
| Responses.TypeName | hotel_system.py:141 | the capitalised type names printed in every message |
| Responses.QuoteMessage | hotel_system.py:159 | the quote text, word for word, with the price through `Text.FormatPrice` |
| Responses.NoRoomsToBookMessage | hotel_system.py:164 | the no-rooms-to-book text, word for word |
| Responses.ConfirmedMessage | hotel_system.py:175-177 | the confirmation text with the quoted type and price, word for word |
| Responses.AvailableOfTypeMessage | hotel_system.py:201 | the availability-of-a-type text with the count through `Text.NatToString` and the price through `Text.FormatPrice` |
| Responses.NoAvailableOfTypeMessage | hotel_system.py:206 | the no-available-rooms-of-a-type text, word for word |
| Responses.CheapestMessage | hotel_system.py:229 | the cheapest-room text, word for word |
| Responses.AvailabilityLine | hotel_system.py:211 | one availability line; `Responses.AvailabilityListingLines` shows the listing has one such line per group |
| Responses.FeatureLine | hotel_system.py:234 | one price/feature line; `Responses.FeatureListingLines` shows each listing has one such line per row |
| Responses.InfoEntry | hotel_system.py:255-258 | the four-line entry of the details listing |
| Responses.AvailabilityListing | hotel_system.py:214 | header plus the joined lines; split back by `Responses.AvailabilityListingLines` |
| Responses.PriceListing | hotel_system.py:237 | header plus the joined lines; split back by `Responses.FeatureListingLines` |
| Responses.FeatureListing | hotel_system.py:247 | header plus the joined lines; split back by `Responses.FeatureListingLines` |
| Responses.DetailsListing | hotel_system.py:263 | header plus the joined entries |
| Booking.Help | hotel_system.py:266-274 | the default reply, state unchanged; reached as `Booking.FallsThroughToHelp` states |
| Booking.BookTransition | hotel_system.py:140-170 | the booking branch; `Booking.BookRequestQuotes`, `Booking.BookRequestNoRoom`, `Booking.BookRequestNoType` and `Booking.BookRequestOverwrites` state its outcomes |
| Booking.ConfirmTransition | hotel_system.py:173-179 | the confirmation branch; `Booking.ConfirmCommits` and `Booking.ConfirmLeavesOneFewer` state its outcome |
| Booking.AvailabilityTransition | hotel_system.py:190-220 | the availability branch; `Booking.AvailabilityForType` and `Booking.AvailabilityForAll` state its outcomes |
| Booking.PriceTransition | hotel_system.py:223-238 | the price branch; `Booking.CheapestAnswered` and `Booking.PriceListingAnswered` state its reply when some room is Available, `Booking.FallsThroughToHelp` when none is, and `Booking.QueriesChangeNothing` that the state is unchanged |
| Booking.FeatureTransition | hotel_system.py:241-248 | the feature branch; `Booking.FeatureListingAnswered` states its reply when some room is Available, `Booking.FallsThroughToHelp` when none is, and `Booking.QueriesChangeNothing` that the state is unchanged |
| Booking.DetailTransition | hotel_system.py:251-264 | the information branch; `Booking.DetailsAnswered` states its reply when some room is Available, `Booking.FallsThroughToHelp` when none is, and `Booking.QueriesChangeNothing` that the state is unchanged |
| Booking.Transition | hotel_system.py:140-274 | one turn for a classified intent; the `Booking` lemmas above state its outcomes and `Booking.TransitionKeepsPendingValid` its invariant |
| Booking.Turn | hotel_system.py:134-274 | a whole turn on the raw text; `Booking.TurnOnlyBooks`, `Booking.ConfirmedExactly` and `Booking.BookTextNeverCommits` hold of it, and `ProcessUserQuery` implements it |
| HotelSystem.CompleteHotelSystem.constructor | hotel_system.py:37 | the system starts over the given table with no quote held, and the invariant holds |
| HotelSystem.CompleteHotelSystem.BookRoom | hotel_system.py:125-132 | the table field becomes the table with every row of that id Booked; the quote invariant survives unless the booked id is the quoted room's |
| HotelSystem.CompleteHotelSystem.ProcessUserQuery | hotel_system.py:134-274 | reply and new fields are exactly the turn `Booking.Turn` gives for the old table, old quote and raw text; the quote invariant is preserved |
| HotelSystem.CompleteHotelSystem.ClassifyText | hotel_system.py:140-251 | the chain of tests on the lower-cased text yields the classifier's intent |
| HotelSystem.CompleteHotelSystem.Dispatch | hotel_system.py:140-274 | running the chosen branch gives the reply and new fields of the state machine's transition |
| HotelSystem.CompleteHotelSystem.RequestBooking | hotel_system.py:140-170 | the booking branch sets the quote and reply as the booking transition does |
| HotelSystem.CompleteHotelSystem.CommitBooking | hotel_system.py:173-179 | the confirmation branch books the quoted room, clears the quote and replies as the confirmation transition does |
| HotelSystem.CompleteHotelSystem.AnswerAvailability | hotel_system.py:190-220 | the availability branch replies as the availability transition does and changes nothing |
| HotelSystem.CompleteHotelSystem.AnswerPrice | hotel_system.py:223-238 | the price branch replies as the price transition does, or finds no rows, and then that transition is the help reply |
| HotelSystem.CompleteHotelSystem.AnswerFeatures | hotel_system.py:241-248 | the feature branch replies as the feature transition does, or finds no rows, and then that transition is the help reply |
| HotelSystem.CompleteHotelSystem.AnswerDetails | hotel_system.py:251-264 | the information branch replies as the detail transition does, or finds no rows, and then that transition is the help reply |

## Left out

- Loading the table: the `data_source` check, pandas CSV loading, column validation, type coercion and the SQLAlchemy engine (hotel_system.py:6-35). These are I/O and library calls. The constructor takes the initial room sequence instead.
- `execute_query` and `execute_update` (hotel_system.py:39-54) as real SQL. They are replaced by functions over the room sequence. Connection handling and transaction atomicity belong to the database.
- The `except` clause that turns any exception into an `error` reply (hotel_system.py:276-280). Every modelled operation is total, so this path cannot be reached in the model.
- `main` (hotel_system.py:282-308), the console loop with `input`, `strip` and `print`.
- `hotel_receptionist.py` (an LLM wrapper with a timestamped chat history) and `app.py` (a Streamlit user interface).
- Floating-point prices and Python's float rounding in `:.2f`. Prices are integer cents.
- `str.lower()` beyond ASCII: only `A`–`Z` are lowered.
- Room type or availability strings other than the three types and `Available`/`Booked`. The SQL's `CASE` would give NULL features for an unknown type.
- Row order that SQL leaves unspecified:
  - the order of ungrouped rows;
  - the order of `GROUP BY` output without `ORDER BY`;
  - the order of equal-price groups;
  - the pick among equally cheap rooms.

  The model fixes each as described above.
- Rooms.MarkBookedCount and Booking.ConfirmLeavesOneFewer require unique room ids. The table does not enforce them, and `book_room` books every row with the id, as `MarkBookedRows` states for any table.
- Negative prices: `Room.price` is a `nat` number of cents. The CSV load does not reject a negative price, which `:.2f` would print as `$-5.00`; the model has no such rows.
- Concurrency: the system holds one process-wide quote and has no threads.
