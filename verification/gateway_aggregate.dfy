/** The gateway's booking summary: one booking fetched from the reservation
    service, completed with its venue and its payment when those services
    answer, and with a note of what went wrong when they do not
    (gateway/internal/transport/aggregate.go,
    gateway/internal/models/booking_summary.go). The HTTP client is a
    parameter: it maps each sub-request to its outcome. */
module GatewayAggregate {
  import opened Wrappers
  import opened Strings
  import opened Http

  /** The base URLs of the three upstream services. */
  datatype Config = Config(reservationUrl: string, venueUrl: string, paymentUrl: string)

  /** A GET the gateway sends on the caller's behalf. */
  datatype SubRequest = SubRequest(url: string, headers: map<string, string>)

  /** What fetchJSON reports: a failure to build, send or read the request,
      or the upstream's status and body. */
  datatype Fetch = Failed | Fetched(status: nat, body: string)

  /** BookingSummaryResponse: the booking as received, and for the venue and
      the payment either the upstream's body or an error text. */
  datatype Summary = Summary(
    booking: string,
    venue: Option<string>, venueError: Option<string>,
    payment: Option<string>, paymentError: Option<string>)

  datatype SummaryReply =
    | Composed(summary: Summary)
      /** The reservation service's non-200 answer, relayed as is. */
    | Relayed(status: int, body: string)
    | Failure(status: int, error: string)

  const AuthorizationHeader: string := "Authorization"

  /** fetchJSON's headers: the caller's Authorization is forwarded when it
      is present, and nothing else. */
  function ForwardHeaders(auth: string): (r: map<string, string>)
    ensures AuthorizationHeader in r <==> auth != ""
    ensures AuthorizationHeader in r ==> r[AuthorizationHeader] == auth
    ensures r.Keys <= {AuthorizationHeader}
  {
    if auth != "" then map[AuthorizationHeader := auth] else map[]
  }

  /** The venue or payment half of the summary: `name` is "venue" or
      "payment". Returns the data and the error text. */
  function Part(name: string, f: Fetch): (r: (Option<string>, Option<string>))
    ensures r.0.Some? != r.1.Some?
    ensures r.0.Some? <==> f.Fetched? && f.status == StatusOK
    ensures r.0.Some? ==> r.0.value == f.body
    ensures f.Failed? ==> r.1 == Some(name + " service unavailable")
    ensures f.Fetched? && f.status != StatusOK ==> r.1 == Some(name + " service status " + Decimal(f.status))
  {
    match f
    case Failed => (None, Some(name + " service unavailable"))
    case Fetched(status, body) =>
      if status != StatusOK then (None, Some(name + " service status " + Decimal(status)))
      else (Some(body), None)
  }

  function BookingRequest(cfg: Config, bookingId: string, auth: string): SubRequest
  {
    SubRequest(cfg.reservationUrl + "/bookings/" + bookingId, ForwardHeaders(auth))
  }

  /** GetBookingSummary: the reply and the sub-requests sent, in order.
      `venueIdOf` reads venue_id from the booking body (None when the body
      is not a JSON object; a missing field reads as 0). */
  function GetBookingSummary(
    cfg: Config, bookingId: string, auth: string,
    fetch: SubRequest -> Fetch, venueIdOf: string -> Option<nat>): (r: (SummaryReply, seq<SubRequest>))
    // A booking id that is not an unsigned 64-bit decimal: 400, nothing sent.
    ensures ParseUint(bookingId, 64).None? <==> r == (Failure(StatusBadRequest, "invalid booking id"), [])
    ensures ParseUint(bookingId, 64).Some? ==> |r.1| >= 1 && r.1[0] == BookingRequest(cfg, bookingId, auth)
    ensures ParseUint(bookingId, 64).Some? && fetch(BookingRequest(cfg, bookingId, auth)).Failed? ==>
      r == (Failure(StatusBadGateway, "reservation service unavailable"), [BookingRequest(cfg, bookingId, auth)])
    // A 200 whose body does not decode: 502, and nothing more is fetched.
    ensures
      (&& ParseUint(bookingId, 64).Some?
       && fetch(BookingRequest(cfg, bookingId, auth)).Fetched?
       && fetch(BookingRequest(cfg, bookingId, auth)).status == StatusOK
       && venueIdOf(fetch(BookingRequest(cfg, bookingId, auth)).body).None?)
      ==> r == (Failure(StatusBadGateway, "invalid booking response"), [BookingRequest(cfg, bookingId, auth)])
    ensures r.0.Relayed? <==>
      ParseUint(bookingId, 64).Some?
      && fetch(BookingRequest(cfg, bookingId, auth)).Fetched?
      && fetch(BookingRequest(cfg, bookingId, auth)).status != StatusOK
    ensures r.0.Relayed? ==>
      && r.0.status == fetch(BookingRequest(cfg, bookingId, auth)).status
      && r.0.body == fetch(BookingRequest(cfg, bookingId, auth)).body
      && r.1 == [BookingRequest(cfg, bookingId, auth)]
    // Once the booking is in hand the answer is a summary, whatever the
    // venue and payment services do.
    ensures r.0.Composed? <==>
      ParseUint(bookingId, 64).Some?
      && fetch(BookingRequest(cfg, bookingId, auth)).Fetched?
      && fetch(BookingRequest(cfg, bookingId, auth)).status == StatusOK
      && venueIdOf(fetch(BookingRequest(cfg, bookingId, auth)).body).Some?
    ensures r.0.Composed? ==>
      var s := r.0.summary;
      && s.booking == fetch(BookingRequest(cfg, bookingId, auth)).body
      && (s.venue.Some? != s.venueError.Some?)
      && (s.payment.Some? != s.paymentError.Some?)
      && |r.1| == 3
      && r.1[1].url == cfg.venueUrl + "/venues/" + Decimal(venueIdOf(s.booking).value)
      && r.1[2].url == cfg.paymentUrl + "/bookings/" + bookingId + "/payment"
    ensures forall i :: 0 <= i < |r.1| ==> r.1[i].headers == ForwardHeaders(auth)
  {
    if ParseUint(bookingId, 64).None? then (Failure(StatusBadRequest, "invalid booking id"), [])
    else
      var headers := ForwardHeaders(auth);
      var bookingReq := BookingRequest(cfg, bookingId, auth);
      match fetch(bookingReq)
      case Failed => (Failure(StatusBadGateway, "reservation service unavailable"), [bookingReq])
      case Fetched(status, body) =>
        if status != StatusOK then (Relayed(status, body), [bookingReq])
        else match venueIdOf(body)
          case None => (Failure(StatusBadGateway, "invalid booking response"), [bookingReq])
          case Some(venueId) =>
            var venueReq := SubRequest(cfg.venueUrl + "/venues/" + Decimal(venueId), headers);
            var paymentReq := SubRequest(cfg.paymentUrl + "/bookings/" + bookingId + "/payment", headers);
            var (venue, venueError) := Part("venue", fetch(venueReq));
            var (payment, paymentError) := Part("payment", fetch(paymentReq));
            (Composed(Summary(body, venue, venueError, payment, paymentError)), [bookingReq, venueReq, paymentReq])
  }

  /** Partial failure stays partial: two runs whose reservation service
      answers alike give the same kind of reply and the same booking,
      however differently the venue and payment services behave. */
  lemma BookingOutcomeIndependentOfOthers(
    cfg: Config, bookingId: string, auth: string,
    fetch1: SubRequest -> Fetch, fetch2: SubRequest -> Fetch, venueIdOf: string -> Option<nat>)
    requires fetch1(BookingRequest(cfg, bookingId, auth)) == fetch2(BookingRequest(cfg, bookingId, auth))
    ensures
      var r1 := GetBookingSummary(cfg, bookingId, auth, fetch1, venueIdOf).0;
      var r2 := GetBookingSummary(cfg, bookingId, auth, fetch2, venueIdOf).0;
      && r1.Composed? == r2.Composed?
      && (r1.Composed? ==> r1.summary.booking == r2.summary.booking)
      && (!r1.Composed? ==> r1 == r2)
  {
  }

  /** Where an error text records its cause: the character after
      "<name> service " is 'u' for unavailable and 's' for a status, whose
      digits end the text. */
  lemma PartErrorShape(name: string, f: Fetch)
    requires Part(name, f).1.Some?
    ensures var e := Part(name, f).1.value;
      && |e| > |name| + 9
      && e[|name| + 9] == (if f.Failed? then 'u' else 's')
      && (f.Fetched? ==> |e| >= |name| + 16 && e[|name| + 16..] == Decimal(f.status))
  {
    var e := Part(name, f).1.value;
    if f.Failed? {
      var tail := " service unavailable";
      AfterPrefix(name, tail);
      assert e[|name|..] == tail;
      assert e[|name| + 9] == e[|name|..][9] == tail[9] == 'u';
    } else {
      var middle := " service status ";
      var pre := name + middle;
      AfterPrefix(name, middle);
      AfterPrefix(pre, Decimal(f.status));
      assert e == pre + Decimal(f.status);
      assert e[|name| + 9] == pre[|name| + 9] == pre[|name|..][9] == middle[9] == 's';
    }
  }

  /** The text after a prefix is what followed it. */
  lemma AfterPrefix(pre: string, post: string)
    ensures |pre + post| == |pre| + |post|
    ensures (pre + post)[|pre|..] == post
  {
  }

  /** The error text tells the caller what happened: the same text means the
      same failure, an unreachable service or one particular status. */
  lemma PartErrorIdentifiesCause(name: string, f1: Fetch, f2: Fetch)
    requires Part(name, f1).1.Some? && Part(name, f1).1 == Part(name, f2).1
    ensures f1.Failed? == f2.Failed?
    ensures f1.Fetched? ==> f1.status == f2.status
  {
    PartErrorShape(name, f1);
    PartErrorShape(name, f2);
    if f1.Fetched? {
      DecimalInjective(f1.status, f2.status);
    }
  }
}
