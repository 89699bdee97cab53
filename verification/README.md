# ProPlay Arenas: booking lifecycle and settlement ledger in Dafny

ProPlay Arenas is a sports-venue booking platform made of small Go services
behind an API gateway. This project models, as pure Dafny functions over
immutable data, the parts that decide what happens to a booking and to the
money behind it:

- **reservation service**: creating, cancelling and partially updating a
  reservation, and the booking events handed to the event publisher
  (`Reservations`, `BookingEvents`);
- **payment service**: the payment ledger (payments and refunds, with the
  unique index on transaction ids), the services that write it, the
  booking-event consumer that settles bookings, and the HTTP handlers
  (`Payments`, `Settlement`, `PaymentHttp`);
- **venue service**: venue validation (types, weekly schedule), the venue
  table with soft delete and paging, the service layer and the HTTP handlers
  (`Venues`, `VenueStore`, `VenueService`, `VenueHttp`);
- **gateway**: which requests are public, bearer-token authentication and
  identity headers, the reverse proxy's path stripping, and the booking
  summary aggregation (`GatewayRoutes`, `GatewayAuth`, `GatewayProxy`,
  `GatewayAggregate`);
- **user service**: the user table with its unique e-mail index, the user
  service, and its own authentication middleware (`Users`, `UserAuth`).

Shared pieces: `Wrappers` (Option/Result), `Strings` (Go's `strings.Split`,
`strings.TrimSpace`, `strconv.ParseUint`, `strconv.Atoi` and 64-bit
wrap-around), `Seqs` (offset/limit windows), `Http` (status codes and a reply
datatype).

Collaborators that the model cannot see are parameters, never assumptions:
the clock (`now`), database read and write failures (`Option<string>`
errors), the reservation repository's lookup result, JSON encoding and
decoding, UUID parsing, time-of-day parsing, JWT verification, bcrypt
hashing, the gateway's HTTP client, and fresh transaction ids. Database
tables are sequences indexed by their auto-increment id (`rows[i].id ==
i + 1`); GORM's soft delete is a `deleted` flag that lookups by primary key
and listings skip, while unique indexes still see deleted rows.

Integers are unbounded except where the source's width matters: payment
amounts are `int64` (`Strings.InInt64`, `Strings.WrapInt64`), path ids go
through `strconv.ParseUint` with their bit size, and limits and offsets
through `strconv.Atoi` on a 64-bit platform, and reservation durations
are nanosecond `time.Duration` values that `Time.Sub` saturates at the
int64 bounds (`Reservations.Elapsed`).

Where the design description and the code disagree, the model follows the
code:

- there is no availability engine or overlap check on bookings;
- the event consumer is not idempotent by key: a redelivered
  booking.created message creates a second payment (with the corrected
  transaction ids);
- a refund is two separate writes (refund row, then payment), not one
  transaction, and a failure of the second write leaves the ledger
  unreconciled (`Payments.FailedPaymentWriteBreaksReconciliation`);
- a new venue is stored with the columns' `default:true` values, so a
  venue submitted inactive, or with a closed day, is stored active or open
  (`VenueStore.CreateStoresDefaults`);
- venue opening hours (`StartTime`/`EndTime`) are read by the venue service
  but are not columns of `models.Venue`; the model carries them as fields
  that the repository's column list never writes, so schedule updates
  persist nothing (`VenueService.UpdateScheduleWritesNothing`).

## Model

| member | source | states |
|---|---|---|
| Strings.Split | payment-service/internal/transport/kafka/consumer.go:185-197 | Go's strings.Split on one separator: always at least one field, and no field contains the separator |
| Strings.JoinSplit | payment-service/internal/transport/kafka/consumer.go:185-197 | joining the fields of a split with the separator restores the original string |
| Strings.SplitJoin | payment-service/internal/transport/kafka/consumer.go:185-197 | splitting a join of separator-free fields returns exactly those fields |
| Strings.SplitLeadingField | gateway/internal/transport/routes.go:70-87 | a split has at least two fields starting with w exactly when the string starts with w and a separator; the rest is the split of the remainder |
| Strings.SplitLeadingFields | gateway/internal/transport/routes.go:70-87 | a split starts with fields ws (followed by more) exactly when the string starts with their join plus a separator |
| Strings.SplitIsFields | gateway/internal/transport/routes.go:70-87 | a split equals ws exactly when the string is the join of ws |
| Strings.SplitLastField | gateway/internal/transport/routes.go:82-87 | the last field is w exactly when the string is w or ends with the separator followed by w |
| Strings.TrimSpace | payment-service/internal/transport/kafka/consumer.go:192 | the result has no leading or trailing white space and is a contiguous part of the input with only white space removed |
| Strings.TrimSpaceTrimmed | payment-service/internal/transport/kafka/consumer.go:192 | trimming an already trimmed string changes nothing |
| Strings.Decimal | gateway/internal/middleware/auth.go:53 | the decimal text of a number is non-empty, all digits, and reads back as the number |
| Strings.DecimalInjective | gateway/internal/transport/aggregate.go:68-86 | different numbers have different decimal texts |
| Strings.ParseUint | payment-service/internal/transport/handler.go:217-223 | strconv.ParseUint: accepts exactly non-empty digit strings whose value fits the bit size, and returns that value |
| Strings.ParseUintDecimal | payment-service/internal/transport/handler.go:217-223 | the decimal text of a number parses back to it exactly when it fits the bit size |
| Strings.Atoi | payment-service/internal/transport/handler.go:225-242 | strconv.Atoi on a 64-bit platform: a text is read exactly when it is an optional sign followed by at least one digit and its signed value fits in int64, and then it reads as that value |
| Strings.AtoiDecimal | payment-service/internal/transport/handler.go:225-242 | signed decimal texts of int64 values parse back to those values |
| Strings.AtoiPadding | payment-service/internal/transport/handler.go:225-242 | leading zeros and a plus sign do not change the value read |
| Strings.AtoiRejectsNonNumeric | payment-service/internal/transport/handler.go:225-242 | a non-digit anywhere except a leading sign makes the text unreadable, and so do the empty text and a lone sign |
| Strings.WrapInt64 | payment-service/internal/services/refund-service.go:71 | two's-complement 64-bit wrap-around: the result is in int64 range and congruent to the input modulo 2^64, unchanged when already in range |
| Seqs.Window | payment-service/internal/repository/payment-repository.go:58-84 | OFFSET/LIMIT: at most limit elements, empty past the end, each element the one at offset plus its position |
| Seqs.WindowsAdjacent | payment-service/internal/repository/payment-repository.go:58-84 | two consecutive windows of size n together form the window of size 2n |
| Reservations.ParseStatus | reservation-service/internal/models/models.go:7-14 | every status text, named or not, reads as a status whose text it is, in canonical form |
| Reservations.ParseStatusText | reservation-service/internal/models/models.go:7-14 | reading the text of a status gives that status back |
| Reservations.SameStatusIsTextual | reservation-service/internal/service/booking-service.go:146 | statuses are compared by their text: on stored statuses that is equality, and an unrecognised text that spells a named status matches it |
| Reservations.ValidateCreate | reservation-service/internal/service/booking-service.go:68-100 | a create request is accepted exactly when every check passes; each error is reported exactly when its check is the first to fail, in the source's order |
| Reservations.CreateReservation | reservation-service/internal/service/booking-service.go:68-138 | a row is stored exactly when validation and the write succeed; it has the requested fields and status, the caller from the token as client, a positive duration equal to the elapsed time saturated at the Duration bounds, and exactly one created event announcing it is published |
| Reservations.CreateIgnoresRequestedClient | reservation-service/internal/service/booking-service.go:102 | the client id in the request has no effect: the stored client is always the token's user |
| Reservations.Elapsed | reservation-service/internal/service/booking-service.go:112 | time.Sub: the exact difference while it fits a Duration, otherwise the nearest bound; positive exactly when the start is before the end |
| Reservations.LongReservationSaturates | reservation-service/internal/service/booking-service.go:68-138 | a reservation longer than a Duration can hold is accepted and stored with the maximal duration, below its true length |
| Reservations.ReservationCancel | reservation-service/internal/service/booking-service.go:140-170 | only a reservation whose status text is neither cancelled nor completed is cancelled, with the reason stored; a cancelled event follows only a successful save |
| Reservations.CancelIgnoresPublishFailure | reservation-service/internal/service/booking-service.go:165-167 | a failure to publish the cancelled event does not change the answer or the saved row |
| Reservations.CancelOnce | reservation-service/internal/service/booking-service.go:146-148 | cancelling an already cancelled reservation is refused and saves nothing |
| Reservations.ValidateUpdate | reservation-service/internal/service/booking-service.go:172-222 | an update is accepted exactly when the provided fields are valid, the final interval is ordered and in the future, and the status text is pending; field errors come before the status check |
| Reservations.Merge | reservation-service/internal/service/booking-service.go:224-246 | each provided field replaces the stored one, absent fields keep theirs, and id, status, reason and duration are untouched |
| Reservations.MergeIdempotent | reservation-service/internal/service/booking-service.go:224-246 | merging the same update twice equals merging it once, and an empty update changes nothing |
| Reservations.ReservationUpdate | reservation-service/internal/service/booking-service.go:172-256 | as written: the merged row is saved exactly when the update is acceptable and the write succeeds, with the old duration; the answer carries the recomputed, saturated one |
| Reservations.PriceOnlyUpdateOfPastBooking | reservation-service/internal/service/booking-service.go:196-214 | a price-only update of a booking whose start is already past is refused, because the final interval is re-checked |
| Reservations.FieldErrorsBeforeStatus | reservation-service/internal/service/booking-service.go:179-222 | a zero owner id is reported even for a reservation that is no longer pending |
| Reservations.UpdateStoresStaleDuration | reservation-service/internal/service/booking-service.go:248-252 | [100,200) moved to end at 300 is stored with duration 100 while the reply says 200 |
| Reservations.ReservationUpdateConsistent | reservation-service/internal/service/booking-service.go:172-256 | corrected update: the saved row is the returned one, its duration matches its interval and is positive |
| Reservations.UpdatesKeepDurationConsistent | reservation-service/internal/service/booking-service.go:172-256 | any series of corrected updates keeps a reservation's stored duration consistent with its interval |
| BookingEvents.WriteJson | reservation-service/internal/kafka/producer.go:46-62 | an encoding failure hands nothing to the writer and is the error; otherwise one message with the topic, key, body and time is handed over and the writer's error is returned |
| BookingEvents.BookingKey | reservation-service/internal/kafka/producer.go:38-44 | the message key is the booking id's decimal text |
| BookingEvents.BookingKeyIdentifiesBooking | reservation-service/internal/kafka/producer.go:38-44 | two keys are equal exactly when the booking ids are, and a key parses back to its id |
| BookingEvents.PublishBookingCreated | reservation-service/internal/kafka/producer.go:38-61 | a created event is handed to booking.created, keyed by the decimal booking id, with its encoding as payload and the clock as time; the error is the encoding error, else the writer's |
| BookingEvents.PublishBookingCancelled | reservation-service/internal/kafka/producer.go:42-61 | a cancelled event is handed to booking.cancelled, keyed by the decimal booking id, with its encoding as payload and the clock as time; the error is the encoding error, else the writer's |
| BookingEvents.BookingEventsShareKey | reservation-service/internal/kafka/producer.go:38-44 | a created and a cancelled event share a key exactly when they concern the same booking, and never a topic |
| BookingEvents.CreatedEventKeyedByReservation | reservation-service/internal/service/booking-service.go:119-135 | the created event of a stored reservation is keyed by that reservation's id |
| Payments.RefundedSumAppend | payment-service/internal/services/refund-service.go:59-71 | appending a refund adds its amount to the refunded sum of its payment only |
| Payments.GetPaymentByID | payment-service/internal/repository/payment-repository.go:45-56 | a lookup by id succeeds exactly for a stored id and returns that row; a read failure is reported as such |
| Payments.InsertPayment | payment-service/internal/repository/payment-repository.go:36-43 | a row is appended with the next id exactly when the write succeeds and its transaction id is not taken; otherwise the ledger is unchanged |
| Payments.ValidatePayment | payment-service/internal/services/payment-service.go:69-84 | a payment request passes exactly when present, with a positive amount and a known method; each error is named for the first failing check |
| Payments.NewPayment | payment-service/internal/services/payment-service.go:86-93 | the new row copies the request, defaults the currency, is Completed and paid now or Pending and unpaid, with nothing refunded |
| Payments.CreatePaymentRow | payment-service/internal/services/payment-service.go:69-106 | a valid request is stored exactly when the write succeeds and the transaction id is free; an invalid one leaves the ledger untouched |
| Payments.CreatePaymentAsWritten | payment-service/internal/services/payment-service.go:86-93 | as written: every stored payment has the empty transaction id, and once one exists every further insert is refused |
| Payments.AsWrittenStoresAtMostOnePayment | payment-service/internal/models/payment.go:31 | from an empty ledger the service as written stores at most one payment, whatever requests arrive |
| Payments.CreateAllAsWrittenBound | payment-service/internal/models/payment.go:31 | the one-payment bound is kept by every further request |
| Payments.SecondPaymentRefused | payment-service/internal/models/payment.go:31 | two valid requests in a row: the first is stored and the second refused with a database error |
| Payments.CreatePayment | payment-service/internal/services/payment-service.go:34-36 | corrected: a valid request with a fresh transaction id is stored as Completed, paid now; ledger validity and reconciliation are kept |
| Payments.CreatePendingPayment | payment-service/internal/services/payment-service.go:38-40 | corrected: as above but stored as Pending and unpaid |
| Payments.CreatePreservesInvariants | payment-service/internal/services/payment-service.go:69-106 | creating keeps ids consecutive, transaction ids unique and refunded amounts equal to the sum of refunds |
| Payments.RefundsOfUnknownPayment | payment-service/internal/services/refund-service.go:59-71 | refunds that all name older payments sum to zero for a new payment |
| Payments.RepeatedRequestsCreateDistinctPayments | payment-service/internal/services/payment-service.go:69-106 | with fresh transaction ids, the same request twice stores two distinct payments |
| Payments.ApplyRefund | payment-service/internal/services/refund-service.go:71-76 | adds the amount to the refunded total; the payment becomes Refunded, stamped now, exactly when fully refunded; other fields are unchanged |
| Payments.RefundArithmeticExact | payment-service/internal/services/refund-service.go:53-76 | for a valid payment and an amount within the remainder, the sum does not wrap and stays within the paid amount |
| Payments.ValidateRefund | payment-service/internal/services/refund-service.go:32-57 | a refund passes exactly when present, positive, of a Completed payment, and within its remainder; the errors come in the source's order |
| Payments.CreateRefund | payment-service/internal/services/refund-service.go:32-85 | a passing refund appends a Completed refund row, then updates the payment; a failed first write changes nothing, and a failed second write keeps the row |
| Payments.CreateRefundPreservesValid | payment-service/internal/services/refund-service.go:32-85 | a refund keeps the ledger valid, even when a write fails |
| Payments.CreateRefundPreservesReconciled | payment-service/internal/services/refund-service.go:32-85 | when the payment write succeeds, refunded amounts still equal the sum of refunds |
| Payments.FailedPaymentWriteBreaksReconciliation | payment-service/internal/services/refund-service.go:66-81 | a failing payment write after a stored refund row answers an error and leaves the ledger unreconciled |
| Payments.RefundUpToRemainder | payment-service/internal/services/refund-service.go:48-57 | a refund of a Completed payment passes exactly when the amount is within the remainder |
| Settlement.PendingRequestFor | payment-service/internal/transport/kafka/consumer.go:96-121 | a created event asks for a payment exactly when it has a booking, a user and a positive amount; the request copies them in roubles, as a card payment when no method is named |
| Settlement.HandleCreated | payment-service/internal/transport/kafka/consumer.go:66-123 | a skipped or undecodable event leaves the ledger alone; otherwise at most one Pending payment for the event is added; validity and reconciliation are kept |
| Settlement.ValidCreatedEventReachesDatabase | payment-service/internal/transport/kafka/consumer.go:96-121 | every complete event with a positive amount and a known method adds one payment |
| Settlement.FindByBooking | payment-service/internal/repository/payment-repository.go:99-110 | the first payment of the booking, or NotFound when it has none |
| Settlement.FirstFrom | payment-service/internal/repository/payment-repository.go:99-110 | the first payment of the booking at or after a position, or NotFound exactly when none exists there |
| Settlement.RefundFor | payment-service/internal/transport/kafka/consumer.go:155-181 | a cancellation refunds exactly a Completed payment with something left, for the whole remainder, with the fixed reason |
| Settlement.HandleCancelled | payment-service/internal/transport/kafka/consumer.go:125-183 | an undecodable, nil or unknown booking changes nothing; a read or refund-write fault changes nothing; otherwise the refund row for the remaining amount is appended with the cancellation reason, and without faults the payment is marked refunded in full at the clock time; validity is kept, and reconciliation when writes succeed |
| Settlement.CancelRefundEffect | payment-service/internal/transport/kafka/consumer.go:170-181 | the refund a cancellation requests, under each combination of read and write faults |
| Settlement.RefundKeepsInvariants | payment-service/internal/transport/kafka/consumer.go:155-181 | the refund a cancellation makes keeps the ledger valid and reconciled |
| Settlement.CancellationRefundsRemainder | payment-service/internal/transport/kafka/consumer.go:155-181 | cancelling a Completed booking appends one refund of its remainder and marks the payment Refunded, fully, now |
| Settlement.CancellationOfPendingPayment | payment-service/internal/transport/kafka/consumer.go:155-181 | cancelling a booking whose payment is still Pending changes nothing |
| Settlement.CancellationIdempotent | payment-service/internal/transport/kafka/consumer.go:125-183 | a redelivered cancellation changes nothing more |
| Settlement.KeepNonBlank | payment-service/internal/transport/kafka/consumer.go:191-195 | every non-blank entry is kept, trimmed, and every kept entry is some entry trimmed; kept entries are non-empty and trimmed |
| Settlement.SplitBrokers | payment-service/internal/transport/kafka/consumer.go:185-197 | empty for an empty setting; otherwise the brokers are exactly the non-blank comma-separated fields, trimmed, each comma-free |
| Settlement.KeepCommaFree | payment-service/internal/transport/kafka/consumer.go:185-197 | filtering keeps entries free of the separator |
| Settlement.KeepNonBlankClean | payment-service/internal/transport/kafka/consumer.go:191-195 | already clean entries are kept as they are |
| Settlement.KeepNonBlankSingle | payment-service/internal/transport/kafka/consumer.go:191-195 | one entry is kept, trimmed, exactly when it is not blank |
| Settlement.KeepNonBlankAppend | payment-service/internal/transport/kafka/consumer.go:191-195 | entries are kept independently and in order: the kept entries of a concatenation are the concatenation of the kept entries |
| Settlement.SplitBrokersEntries | payment-service/internal/transport/kafka/consumer.go:185-197 | the brokers of a comma-join of fields are the kept entries of those fields |
| Settlement.SplitBrokersJoin | payment-service/internal/transport/kafka/consumer.go:185-197 | splitting the comma-join of clean broker names gives them back |
| PaymentHttp.LookupFailure | payment-service/internal/transport/handler.go:71-90 | NotFound becomes 404, every other lookup failure a 500 |
| PaymentHttp.CreatePayment | payment-service/internal/transport/handler.go:50-69 | 400 exactly when the body does not bind; 201 exactly when it binds, no payment holds the empty transaction id and the row is stored, and the new payment carries the empty transaction id; otherwise 500; only a 201 changes the ledger |
| PaymentHttp.SecondPaymentOverHttpFails | payment-service/internal/services/payment-service.go:86-93 | after one payment is created over HTTP, every further well-formed request is a 500 that changes nothing |
| PaymentHttp.BindingSubsumesServiceChecks | payment-service/internal/dto/payment.go:11-17 | a body that binds always passes the service's checks and keeps its currency |
| PaymentHttp.ParseUintId | payment-service/internal/transport/handler.go:217-223 | a path id is accepted exactly when it is a decimal below 2^32, and read as its value |
| PaymentHttp.ParseUintIdDecimal | payment-service/internal/transport/handler.go:217-223 | a number's decimal text is accepted exactly when it fits 32 bits |
| PaymentHttp.GetPaymentByID | payment-service/internal/transport/handler.go:71-90 | 400 for a malformed id, 200 with the stored row exactly for an existing id, 404 for a missing one |
| PaymentHttp.GetPaymentByBookingID | payment-service/internal/transport/handler.go:159-178 | 400 for a malformed UUID, 404 when the booking has no payment, 200 with its first payment |
| PaymentHttp.ParseLimitOffset | payment-service/internal/transport/handler.go:225-242 | each query value is its Atoi reading, or the default (10, 0) when it is absent or does not parse |
| PaymentHttp.ParseLimitOffsetExamples | payment-service/internal/transport/handler.go:225-242 | absent values give the defaults; decimal and negative decimal texts give their values; trailing garbage falls back |
| PaymentHttp.HistoryUser | payment-service/internal/transport/handler.go:93-106 | the user comes from the header when present, otherwise from the query; a missing or malformed UUID is reported |
| PaymentHttp.ClampPage | payment-service/internal/repository/payment-repository.go:59-64 | a non-positive limit becomes 10, a negative offset zero, and other values are kept |
| PaymentHttp.UserPaymentsNewestFirst | payment-service/internal/repository/payment-repository.go:74-75 | exactly the user's payments, newest first |
| PaymentHttp.UserHistory | payment-service/internal/repository/payment-repository.go:58-84 | a window of the user's payments, newest first, after clamping limit and offset |
| PaymentHttp.HistoryPagesAreConsecutive | payment-service/internal/repository/payment-repository.go:58-84 | consecutive history pages neither overlap nor skip payments |
| PaymentHttp.GetPaymentsHistory | payment-service/internal/transport/handler.go:92-126 | 400 exactly for a missing or malformed user, 500 for a read failure; a 200 carries the window of the user's payments, newest first, at the clamped offset and limit, and the total of all of them |
| PaymentHttp.CreateRefund | payment-service/internal/transport/handler.go:128-157 | 400 for a bad id, body or refused refund, 404 for an unknown payment, 201 exactly when the refund is stored: the answer is the appended refund row and the payment carries it, other payments unchanged; a failed payment write is a 500 that keeps the row; every other refusal leaves the ledger unchanged |
| PaymentHttp.RefundRefusalsAreClientErrors | payment-service/internal/transport/handler.go:244-250 | refunding beyond the remainder or a non-Completed payment is a 400 that changes nothing |
| Venues.VenueTypesExactly | venue-service/internal/models/venue.go:12-27 | exactly the five named venue types are valid; the empty text and other spellings are not |
| Venues.DayIndex | venue-service/internal/models/venue.go:68-106 | each weekday has its place, Monday first, in the order days are checked |
| Venues.CheckDay | venue-service/internal/models/venue.go:68-106 | a day passes exactly when well formed; an enabled day without both hours, an enabled day whose start is not before its end, and a disabled day with hours are each reported for that day |
| Venues.CheckDaysFrom | venue-service/internal/models/venue.go:68-106 | the days from a position all pass exactly when none is reported; a report is the first failing day's |
| Venues.ValidateVenue | venue-service/internal/models/venue.go:68-106 | a venue passes exactly when its type is valid and every day is well formed; an invalid type is reported first |
| Venues.ValidationIgnoresOtherFields | venue-service/internal/models/venue.go:68-106 | the verdict depends only on the type and the schedule |
| Venues.MondayReportedBeforeSunday | venue-service/internal/models/venue.go:68-106 | with two bad days, the earlier one in the week is reported |
| Venues.BeforeCreate | venue-service/internal/models/venue.go:108-110 | the create hook refuses exactly the invalid venues |
| Venues.BeforeUpdate | venue-service/internal/models/venue.go:112-114 | the update hook refuses exactly the invalid venues |
| Venues.HooksAgree | venue-service/internal/models/venue.go:108-114 | both hooks give the same verdict |
| VenueStore.GetByID | venue-service/internal/repository/venue_repository.go:49-56 | a lookup succeeds exactly for a live id and returns that row |
| VenueStore.NewestFirst | venue-service/internal/repository/venue_repository.go:58-94 | the selected rows in descending id order |
| VenueStore.NewestFirstMembers | venue-service/internal/repository/venue_repository.go:58-94 | a row is listed exactly when it is live and selected |
| VenueStore.SameSelection | venue-service/internal/repository/venue_repository.go:58-94 | selectors that agree on every row give the same listing |
| VenueStore.Ordered | venue-service/internal/repository/venue_repository.go:58-94 | the live venues matching the filter, newest first, and no others |
| VenueStore.GetList | venue-service/internal/repository/venue_repository.go:58-94 | the page of the matching venues at the offset, newest first; without a positive limit, all of them |
| VenueStore.Offset | venue-service/internal/repository/venue_repository.go:76-82 | no offset unless limit and page are positive; (page-1)*limit while it fits in int64; never negative |
| VenueStore.PagesAreConsecutive | venue-service/internal/repository/venue_repository.go:58-94 | consecutive pages neither overlap nor skip venues |
| VenueStore.HugePageRepeatsFirstPage | venue-service/internal/repository/venue_repository.go:76-82 | page 2^62+1 of size 2 wraps its offset negative and returns the first page |
| VenueStore.GetByOwnerID | venue-service/internal/repository/venue_repository.go:96-103 | exactly the owner's live venues, newest first |
| VenueStore.OwnerListingIsFilteredList | venue-service/internal/repository/venue_repository.go:96-103 | the owner listing equals the general listing filtered by owner with no page limit |
| VenueStore.Create | venue-service/internal/repository/venue_repository.go:41-47 | the hook, the price check, a primary key already in use and the write each refuse in that order with the table unchanged; otherwise the venue is appended at the next id with the column defaults applied, and that is what is returned |
| VenueStore.WithDefaults | venue-service/internal/models/venue.go:36-57 | the insert defaults: active, every day enabled, hours and all other fields kept |
| VenueStore.DefaultsFixedPoints | venue-service/internal/models/venue.go:36-57 | the defaults change a venue exactly when it is inactive or has a disabled day, and applying them twice is applying them once |
| VenueStore.CreateStoresDefaults | venue-service/internal/models/venue.go:36-57 | as written, a created venue is stored active, and a valid venue with a closed day is stored invalid |
| VenueStore.CreateAsSubmitted | venue-service/internal/repository/venue_repository.go:41-47 | corrected insert: the same refusals, and an accepted venue is stored as submitted at the next id |
| VenueStore.SubmittedVenueStoredValid | venue-service/internal/models/venue.go:68-110 | corrected insert: the stored venue passes the validation and keeps the submitted active flag and days |
| VenueStore.WriteColumns | venue-service/internal/repository/venue_repository.go:105-142 | the written columns come from the request; id, deletion and opening hours stay as stored |
| VenueStore.Update | venue-service/internal/repository/venue_repository.go:105-142 | a valid update of a live venue writes its columns and nothing else; a refused one leaves the table unchanged |
| VenueStore.Delete | venue-service/internal/repository/venue_repository.go:144-156 | a live venue is marked deleted; a missing one is RecordNotFound |
| VenueStore.DeleteHidesVenue | venue-service/internal/repository/venue_repository.go:144-156 | after a delete the venue is gone from lookups and listings, and a second delete reports it missing |
| VenueService.FromStore | venue-service/internal/services/venue_service.go:55-66 | only RecordNotFound becomes VenueNotFound; other store errors pass through |
| VenueService.GetByID | venue-service/internal/services/venue_service.go:55-66 | a live venue is returned; a missing one is VenueNotFound |
| VenueService.GetSchedule | venue-service/internal/services/venue_service.go:147-157 | the schedule comes from the live venue; a missing one is VenueNotFound |
| VenueService.CopyFields | venue-service/internal/services/venue_service.go:103-128 | the request's fields under the stored venue's id and deletion flag |
| VenueService.Update | venue-service/internal/services/venue_service.go:103-128 | a missing venue is VenueNotFound; a valid update writes the request's columns to that venue only |
| VenueService.UpdateStoresRequestColumns | venue-service/internal/services/venue_service.go:103-128 | after a successful update the stored venue has the requested fields and its old opening hours |
| VenueService.Delete | venue-service/internal/services/venue_service.go:130-145 | a live venue is soft-deleted; a missing one is VenueNotFound |
| VenueService.UpdateSchedule | venue-service/internal/services/venue_service.go:159-177 | succeeds exactly when the venue is live, passes the hooks and price check, and the write succeeds; a missing venue is VenueNotFound |
| VenueService.UpdateScheduleWritesNothing | venue-service/internal/services/venue_service.go:159-177 | a schedule update leaves the table as it was |
| VenueHttp.ServiceReply | venue-service/internal/transport/venue_transport.go:113-138 | VenueNotFound is 404 and every other service error 500 |
| VenueHttp.ParseID | venue-service/internal/transport/venue_transport.go:431-449 | a path id is accepted exactly when it is a positive decimal below 2^64; zero and malformed ids are told apart |
| VenueHttp.ParseIDDecimal | venue-service/internal/transport/venue_transport.go:431-449 | a number's decimal text is accepted exactly when positive and within 64 bits |
| VenueHttp.ListFilter | venue-service/internal/transport/venue_transport.go:59-111 | the query binds to a filter exactly when page and limit are in range and the type is empty or valid; defaults are page 1, limit 10 |
| VenueHttp.GetList | venue-service/internal/transport/venue_transport.go:59-111 | 400 for a bad query, 500 for a read failure, otherwise 200 with exactly the requested page (default page 1 of 10) of the matching live venues, newest first, never more than 100 |
| VenueHttp.DefaultListIsFirstTen | venue-service/internal/transport/venue_transport.go:59-111 | a query without page or limit answers the ten newest matching venues |
| VenueHttp.GetByID | venue-service/internal/transport/venue_transport.go:113-138 | 400 for a bad id, 404 for a missing or deleted venue, 200 with the stored row at that id |
| VenueHttp.FromBody | venue-service/internal/transport/dto.go:62-92 | a body converts exactly when both times parse; the first bad time is reported |
| VenueHttp.Create | venue-service/internal/transport/venue_transport.go:140-182 | 400 for a body that does not bind or convert; 201 exactly when the venue is valid, its price allowed, its body id not in use and the write succeeds, answering and appending the venue with the column defaults at the next id; otherwise 500 with the table unchanged |
| VenueHttp.CreateWithTakenIdIsServerError | venue-service/internal/transport/venue_transport.go:140-182 | a body id already in the table, deleted rows included, is a 500 that changes nothing |
| VenueHttp.CreateAnswersActive | venue-service/internal/transport/venue_transport.go:140-182 | a created venue is answered and stored active, whatever was submitted |
| VenueHttp.CreateBadScheduleIsServerError | venue-service/internal/transport/venue_transport.go:140-182 | a venue refused by the creation hook for its schedule is answered 500 |
| VenueHttp.CheckPut | venue-service/internal/transport/venue_transport.go:184-230 | a PUT body passes exactly with a valid type, an owner, a non-negative price and a district; each error is the first failing check |
| VenueHttp.FreeVenueAccepted | venue-service/internal/transport/venue_transport.go:184-230 | a price of zero is accepted and a price of -1 refused |
| VenueHttp.PutRefusal | venue-service/internal/transport/venue_transport.go:184-240 | a PUT is refused exactly for a bad id, an unbindable body, a failed check or a bad time |
| VenueHttp.Update | venue-service/internal/transport/venue_transport.go:184-288 | 400 exactly for a refusal, 404 for a missing venue, 200 with the re-read venue, 204 when the re-read fails; only success changes the table |
| VenueHttp.UpdateAnswersRequestedFields | venue-service/internal/transport/venue_transport.go:184-288 | a 200 answers the requested fields under the path's id, with the old opening hours |
| VenueHttp.Delete | venue-service/internal/transport/venue_transport.go:290-314 | 400 for a bad id, 404 for a missing venue, 200 exactly when the venue is deactivated |
| VenueHttp.GetSchedule | venue-service/internal/transport/venue_transport.go:316-340 | 400 for a bad id, 404 for a missing venue, 200 with the venue's schedule |
| VenueHttp.UpdateSchedule | venue-service/internal/transport/venue_transport.go:342-397 | 400 for a bad id or body; success only for a live venue; the table never changes |
| VenueHttp.GetByOwnerID | venue-service/internal/transport/venue_transport.go:410-428 | 400 for a bad id, 500 for a read failure, 200 with the owner's live venues, newest first |
| VenueHttp.VenueTypeValues | venue-service/internal/transport/venue_transport.go:399-408 | the five venue types, each once, and nothing else |
| GatewayRoutes.IsPublicRequest | gateway/internal/transport/routes.go:66-90 | auth paths are public for every method; other public requests are GETs under /api/, and a public path ending in /bookings is a venue-type one |
| GatewayRoutes.PublicMatchesSegments | gateway/internal/transport/routes.go:66-90 | the prefix and suffix tests mean: a public request is an auth path with a further segment, or a GET on venue types, or a GET on venues whose last segment is not "bookings" |
| GatewayRoutes.PublicExamples | gateway/internal/transport/routes.go:66-90 | login for any verb, and GET on venue listings, availability and venue types, are public |
| GatewayRoutes.ProtectedExamples | gateway/internal/transport/routes.go:66-90 | a venue's booking list, a POST to venues, the bookings area, /api/venuesX and /api/auth without a further segment need a token |
| GatewayProxy.StripPath | gateway/internal/proxy/proxy.go:38-47 | the forwarded path is rooted; a mounted path loses its prefix, an unmounted rooted path is unchanged, the mount point becomes "/" |
| GatewayProxy.StripUndoesPrefix | gateway/internal/proxy/proxy.go:38-47 | a rooted path reached through the mount point is forwarded as itself |
| GatewayProxy.StripExamples | gateway/internal/proxy/proxy.go:38-47 | the mount point maps to "/", a prefix is removed without regard to segment boundaries, and other paths are kept or rooted |
| GatewayProxy.ForwardedPath | gateway/internal/proxy/proxy.go:37-54 | the rewrite hook sees the stripped path; without a prefix or hook the path is unchanged |
| GatewayProxy.Relay | gateway/internal/proxy/proxy.go:24-28 | an unreachable upstream gives exactly the 502 upstream_unavailable body; otherwise the upstream's answer passes through |
| GatewayAuth.BearerToken | gateway/internal/middleware/auth.go:28-33 | an accepted token never contains a space |
| GatewayAuth.BearerTokenExact | gateway/internal/middleware/auth.go:28-33 | a header is accepted with a token exactly when it is "Bearer", one space, and that space-free token |
| GatewayAuth.BearerRejections | gateway/internal/middleware/auth.go:28-33 | a double space, a lower-case scheme, a missing token and a token with a space are refused |
| GatewayAuth.WithIdentity | gateway/internal/middleware/auth.go:53-54 | the forwarded headers carry the token's user id and role, and the client's other headers unchanged |
| GatewayAuth.AuthUnless | gateway/internal/middleware/auth.go:14-57 | public requests pass untouched; otherwise 401 for a missing header, a malformed header or a bad token, and a verified caller continues with its identity headers |
| GatewayAuth.IdentityIgnoresClientHeaders | gateway/internal/middleware/auth.go:53-54 | on a protected request the identity forwarded depends on the token alone |
| GatewayAggregate.ForwardHeaders | gateway/internal/transport/aggregate.go:91-111 | only the caller's Authorization is forwarded, and only when present |
| GatewayAggregate.Part | gateway/internal/transport/aggregate.go:68-86 | a venue or payment part has data exactly on a 200 and an error text otherwise, naming unavailability or the status |
| GatewayAggregate.GetBookingSummary | gateway/internal/transport/aggregate.go:38-89 | 400 and nothing sent for a bad id; 502 when the booking cannot be fetched, and 502 "invalid booking response" when a 200 booking does not decode, each after the one request; a non-200 booking answer is relayed; a decodable 200 gives a summary whatever the other services do |
| GatewayAggregate.BookingOutcomeIndependentOfOthers | gateway/internal/transport/aggregate.go:61-88 | the kind of reply and the booking depend on the reservation service alone |
| GatewayAggregate.PartErrorShape | gateway/internal/transport/aggregate.go:68-86 | the error text marks unavailability or a status, whose digits end it |
| GatewayAggregate.PartErrorIdentifiesCause | gateway/internal/transport/aggregate.go:68-86 | equal error texts mean the same failure |
| UserAuth.ExtractBearer | user-service/internal/middleware/auth_middleware.go:19-26 | a token is read exactly from a header longer than the "Bearer " prefix that starts with it, and is the rest of the header |
| UserAuth.AuthMiddleware | user-service/internal/middleware/auth_middleware.go:10-38 | 401 for a missing header, a malformed header or a bad token; otherwise the parsed claims continue |
| UserAuth.GatewayTokensReadAlike | user-service/internal/middleware/auth_middleware.go:19-26 | every non-empty token the gateway accepts is read the same way here |
| UserAuth.ReadingsDiffer | user-service/internal/middleware/auth_middleware.go:19-26 | a double space and an empty token are read differently by the gateway and the user service |
| Users.RepoGetByID | user-service/internal/repository/user_repository.go:48-62 | a lookup succeeds exactly for a live id and returns that row |
| Users.FindLiveEmail | user-service/internal/repository/user_repository.go:64-81 | the first live row with the e-mail at or after a position, or none exactly when there is none |
| Users.RepoGetByEmail | user-service/internal/repository/user_repository.go:64-81 | a lookup by e-mail succeeds exactly when a live user has it, and returns that user |
| Users.RepoCreate | user-service/internal/repository/user_repository.go:31-46 | a user is appended with the next id exactly when the write succeeds and the e-mail is unused by any row, deleted or not |
| Users.RepoUpdate | user-service/internal/repository/user_repository.go:98-111 | the row is replaced exactly when the write succeeds and the e-mail stays unique |
| Users.RepoDelete | user-service/internal/repository/user_repository.go:83-96 | a live user is marked deleted; deleting a missing one writes nothing and reports no error |
| Users.InitialRole | user-service/internal/services/user_service.go:37-40 | an empty role becomes Client; any other role is kept as sent |
| Users.Create | user-service/internal/services/user_service.go:31-53 | a hash failure stores nothing; otherwise the user is stored with the hashed password and initial role exactly when the e-mail is free |
| Users.GetByID | user-service/internal/services/user_service.go:60-66 | the live user by id, or the fixed lookup error |
| Users.GetByEmail | user-service/internal/services/user_service.go:68-74 | the live user with the e-mail, or the fixed lookup error |
| Users.Merge | user-service/internal/services/user_service.go:82-88 | provided name and e-mail replace the stored ones; everything else, the role included, is kept |
| Users.Update | user-service/internal/services/user_service.go:76-93 | a missing user or read failure is reported as is; otherwise the merged user is saved |
| Users.Delete | user-service/internal/services/user_service.go:95-102 | a live user is soft-deleted; a missing one is RecordNotFound |
| Users.CreatedUserIsFound | user-service/internal/services/user_service.go:31-74 | a created user is found again by id and by e-mail, as stored |
| Users.UpdateIdempotent | user-service/internal/services/user_service.go:76-93 | repeating a successful update changes nothing more |
| Users.DeletedUserIsGone | user-service/internal/services/user_service.go:95-102 | after a delete, the user cannot be found and a second delete reports it missing |
| Users.RoleSpellings | user-service/internal/dto/user_models.go:16 | every role a request may bind is stored as sent and is none of the model's capitalised role names; no role gives Client |

## Left out

- Logging, configuration, database connection, HTTP server wiring, gin route
  tables and the gateway's choice of upstream per path: no behaviour beyond
  dispatch.
- Kafka reader loops, offsets and retries: a message arrives already decoded,
  or undecodable.
- JSON encoding and decoding, UUID parsing, time-of-day parsing, JWT
  signing and verification, bcrypt: oracle parameters.
- The reservation service's HTTP transport and repository: the service's
  lookup and save results are parameters. Its transport answers 500 when
  the row was stored but publishing failed; that layer is not modelled.
- Reading reservations (GetUserReservations, GetByID): plain repository
  reads with no logic.
- The copy of the reservation service under services/reservation: an older
  duplicate of reservation-service.
- The user service's HTTP handlers, auth_service (login and token issue) and
  the unused UpdateRole repository method.
- Refund reads (GetRefundByID, GetRefundsByPaymentID) and payment
  soft delete: nothing in the core calls them.
- Venue seeding and the venue DTO's JSON shapes (ToVenueDTO, ToScheduleDTO):
  field copies.
- models.IsValidPaymentMethod is not part of this model; it is taken to
  accept exactly "card" and "cash", the two method constants.
- Payment history is ordered by created_at in the source; the model orders
  by id, which is the same order for rows written one after another.
- The venue service calls `Venue.StartTime`/`EndTime` and builds a
  `ScheduleUpdate{Weekdays}` that `models.Venue` and `ScheduleUpdate` do not
  declare; the model keeps the fields and reads the schedule update as a
  no-op write.
- The gateway writes `claims.UserID.String()` on an unsigned integer; the
  model takes it as the decimal text of the id.
- The reservation service reads the creator's role from its own claims
  model; JWT contents are not modelled beyond the claims record.
- Reservations.CreateReservation: the price is an unbounded integer rather
  than a float64, since only its sign is ever tested.
- Strings.Atoi: accepts only the ASCII sign and digits, as Go does; no
  underscore or base prefixes.
- VenueStore.Create: a body id beyond the last row is stored at the next
  id rather than under the requested one, because tables are sequences
  indexed by id.
- VenueHttp.Create: a body id beyond the last row is stored at the next
  id, for the same reason as VenueStore.Create; an id already in the table
  is refused with a 500 (VenueHttp.CreateWithTakenIdIsServerError).
- VenueStore.PagesAreConsecutive: promised only while page times limit
  fits in int64; past that the offset wraps
  (VenueStore.HugePageRepeatsFirstPage).
- VenueHttp.Create: does not promise that the stored venue passes the
  validation, because the column defaults can store a day enabled without
  hours (VenueStore.CreateStoresDefaults).
- PaymentHttp.CreatePayment: the handler calls the as-written payment
  creation, so only the first payment over HTTP is stored
  (PaymentHttp.SecondPaymentOverHttpFails).
- Settlement.HandleCreated: uses the corrected payment creation (fresh
  transaction ids) rather than the as-written one that collides on the
  unique index.

## Findings

| source | as written | input that shows it | evidently intended | confidence | as-written member | corrected member |
|---|---|---|---|---|---|---|
| reservation-service/internal/service/booking-service.go:248-252 | the merged reservation is saved first and its duration recomputed afterwards, on the returned value only | a pending [100, 200) reservation updated to end at 300 is stored with duration 100 and answered with 200 | the stored duration equals end minus start | not executed | Reservations.UpdateStoresStaleDuration | Reservations.UpdatesKeepDurationConsistent |
| payment-service/internal/services/payment-service.go:86-93 | payments are created without a transaction id although the column has a unique index (payment-service/internal/models/payment.go:31) | two valid payment requests in a row: the second insert repeats the empty transaction id and is refused | every payment gets its own transaction id | not executed | Payments.SecondPaymentRefused | Payments.RepeatedRequestsCreateDistinctPayments |
| venue-service/internal/models/venue.go:36-57 | `is_active` and each day's `enabled` carry `default:true`, so GORM's insert writes true in place of a submitted false, after the creation hook has validated the venue | a venue created with is_active false comes back active; a valid venue whose Monday is {enabled: false} with no hours is stored enabled without hours, which the validation forbids | the venue is stored as submitted and approved by the hook | not executed | VenueStore.CreateStoresDefaults | VenueStore.SubmittedVenueStoredValid |
