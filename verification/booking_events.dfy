/** The reservation service's event producer: which topic and key each
    booking event is written with. JSON encoding and the broker writer are
    collaborators: their results are parameters. */
module BookingEvents {
  import opened Wrappers
  import Strings
  import opened Reservations

  const TopicBookingCreated: string := "booking.created"
  const TopicBookingCancelled: string := "booking.cancelled"

  type Byte = x: int | 0 <= x < 256

  /** A broker message. The key's bytes are the characters of `key`, which
      for a decimal key are ASCII digits. */
  datatype Message = Message(topic: string, key: string, value: seq<Byte>, time: Time)

  /** The result of writeJSON: its error, and the message it handed to the
      writer, if it got that far. */
  datatype Publication = Publication(err: Option<string>, handed: Option<Message>)

  /** writeJSON. `encoded` is json.Marshal's result for the event;
      `writerErr` is the writer's answer. */
  function WriteJson(topic: string, key: string, encoded: Result<seq<Byte>, string>, now: Time,
                     writerErr: Option<string>): (p: Publication)
    // A serialisation failure writes nothing.
    ensures encoded.Err? ==> p == Publication(Some(encoded.error), None)
    // Otherwise exactly the given topic, key and serialised value go out.
    ensures encoded.Ok? ==> p.handed == Some(Message(topic, key, encoded.value, now))
    ensures encoded.Ok? ==> p.err == writerErr
  {
    match encoded
    case Err(e) => Publication(Some(e), None)
    case Ok(bytes) => Publication(writerErr, Some(Message(topic, key, bytes, now)))
  }

  /** The message key of a booking: `%d` of its id. */
  function BookingKey(bookingId: nat): (key: string)
    ensures |key| >= 1 && Strings.AllDigits(key)
    ensures Strings.DecimalValue(key) == bookingId
  {
    Strings.Decimal(bookingId)
  }

  /** Distinct bookings never share a key, and the key parses back to the
      booking id. */
  lemma BookingKeyIdentifiesBooking(a: nat, b: nat)
    ensures BookingKey(a) == BookingKey(b) <==> a == b
    ensures a < Strings.Pow2(64) ==> Strings.ParseUint(BookingKey(a), 64) == Some(a)
  {
    Strings.ParseUintDecimal(a, 64);
  }

  /** PublishBookingCreated: writeJSON on booking.created, keyed by the
      booking id. */
  function PublishBookingCreated(
    evt: BookingCreatedEvent, encode: BookingCreatedEvent -> Result<seq<Byte>, string>,
    now: Time, writerErr: Option<string>): (p: Publication)
    ensures p.handed.Some? ==> p.handed.value.topic == TopicBookingCreated
    ensures p.handed.Some? ==> p.handed.value.key == BookingKey(evt.bookingId)
    ensures p.handed.Some? <==> encode(evt).Ok?
    // The payload is the event's encoding, sent at `now`; the error is the
    // encoder's, or else the writer's.
    ensures p.handed.Some? ==> p.handed.value.value == encode(evt).value && p.handed.value.time == now
    ensures p.err == (if encode(evt).Err? then Some(encode(evt).error) else writerErr)
  {
    WriteJson(TopicBookingCreated, BookingKey(evt.bookingId), encode(evt), now, writerErr)
  }

  /** PublishBookingCancelled: writeJSON on booking.cancelled, keyed by the
      booking id. */
  function PublishBookingCancelled(
    evt: BookingCancelledEvent, encode: BookingCancelledEvent -> Result<seq<Byte>, string>,
    now: Time, writerErr: Option<string>): (p: Publication)
    ensures p.handed.Some? ==> p.handed.value.topic == TopicBookingCancelled
    ensures p.handed.Some? ==> p.handed.value.key == BookingKey(evt.bookingId)
    ensures p.handed.Some? <==> encode(evt).Ok?
    // The payload is the event's encoding, sent at `now`; the error is the
    // encoder's, or else the writer's.
    ensures p.handed.Some? ==> p.handed.value.value == encode(evt).value && p.handed.value.time == now
    ensures p.err == (if encode(evt).Err? then Some(encode(evt).error) else writerErr)
  {
    WriteJson(TopicBookingCancelled, BookingKey(evt.bookingId), encode(evt), now, writerErr)
  }

  /** Both events of one booking carry the same key, on different topics, so
      the broker keeps them in one partition in order. */
  lemma BookingEventsShareKey(
    created: BookingCreatedEvent, cancelled: BookingCancelledEvent,
    encodeCreated: BookingCreatedEvent -> Result<seq<Byte>, string>,
    encodeCancelled: BookingCancelledEvent -> Result<seq<Byte>, string>,
    t1: Time, t2: Time, e1: Option<string>, e2: Option<string>)
    requires encodeCreated(created).Ok? && encodeCancelled(cancelled).Ok?
    ensures
      var m1 := PublishBookingCreated(created, encodeCreated, t1, e1).handed.value;
      var m2 := PublishBookingCancelled(cancelled, encodeCancelled, t2, e2).handed.value;
      && (m1.key == m2.key <==> created.bookingId == cancelled.bookingId)
      && m1.topic != m2.topic
  {
    BookingKeyIdentifiesBooking(created.bookingId, cancelled.bookingId);
  }

  /** The events the booking service hands over are keyed by the booking
      they announce: the created event of a stored reservation carries its
      id. */
  lemma CreatedEventKeyedByReservation(
    req: CreateRequest, claims: Claims, now: Time, newId: nat, eventId: string,
    publishErr: Option<string>, encode: BookingCreatedEvent -> Result<seq<Byte>, string>,
    writerErr: Option<string>)
    requires CreateAcceptable(req, claims, now)
    requires encode(CreateReservation(req, claims, now, newId, None, eventId, publishErr).published.value).Ok?
    ensures
      var e := CreateReservation(req, claims, now, newId, None, eventId, publishErr);
      var p := PublishBookingCreated(e.published.value, encode, now, writerErr);
      p.handed.Some? && p.handed.value.key == BookingKey(e.stored.value.id) && p.handed.value.key == BookingKey(newId)
  {
  }
}
