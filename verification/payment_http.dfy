/** The payment service's HTTP handlers: request binding, id parsing, the
    history query, and how service errors become statuses
    (payment-service/internal/transport/handler.go), with the history query
    of the payment repository. Parsing a UUID is a parameter. */
module PaymentHttp {
  import opened Wrappers
  import Strings
  import opened Http
  import opened Payments
  import Settlement
  import Seqs

  /** What an error reply says. A 500 never carries the underlying error. */
  datatype Problem =
    | BindingFailed(cause: string)
    | Refused(error: PaymentError)
    | BadId
    | BadUuid
    | MissingUserId
    | PaymentMissing
    | Internal

  /** isClientError: the service errors that are the caller's fault. */
  predicate IsClientError(e: PaymentError)
  {
    match e
    case EmptyRequest => true
    case InvalidAmount => true
    case InvalidMethod => true
    case PaymentNotComplete => true
    case RefundAmountExceed => true
    case _ => false
  }

  /** The reply for a failed lookup: 404 when nothing matched. */
  function LookupFailure<T>(e: PaymentError): (r: Reply<T, Problem>)
    ensures r.status == StatusNotFound <==> e == NotFound
    ensures r.status != StatusNotFound ==> r == Error(StatusInternalServerError, Internal)
  {
    if e == NotFound then Error(StatusNotFound, PaymentMissing) else Error(StatusInternalServerError, Internal)
  }

  // ---------------------------------------------------------------------
  // POST /payments
  // ---------------------------------------------------------------------

  /** The JSON body as decoding leaves it: an absent field is its zero
      value. */
  datatype PaymentBody = PaymentBody(
    bookingId: Uuid, userId: Uuid, amount: Strings.Int64, currency: string, paymentMethod: string)

  /** The body's binding tags: both ids present, a positive amount, a
      currency, and a method among card and cash. `decodeErr` is a body
      that is not JSON of that shape. */
  predicate PaymentBodyBinds(decodeErr: Option<string>, b: PaymentBody)
  {
    && decodeErr.None? && b.bookingId != NilUuid && b.userId != NilUuid
    && b.amount > 0 && b.currency != "" && IsValidPaymentMethod(b.paymentMethod)
  }

  function AsRequest(b: PaymentBody): CreatePaymentRequest
  {
    CreatePaymentRequest(b.bookingId, b.userId, b.amount, b.currency, b.paymentMethod)
  }

  /** CreatePayment. The handler goes through the service as written, so
      the new row's transaction id is always empty. `bindingMessage` is the
      validator's message for a body that does not bind. */
  function CreatePayment(
    l: Ledger, decodeErr: Option<string>, b: PaymentBody, bindingMessage: string,
    now: Time, storeErr: Option<string>): (r: (Reply<Payment, Problem>, Ledger))
    ensures r.0.status == StatusBadRequest <==> !PaymentBodyBinds(decodeErr, b)
    ensures r.0.status == StatusCreated <==>
      PaymentBodyBinds(decodeErr, b) && storeErr.None? && !TransactionTaken(l, "")
    ensures r.0.status in {StatusCreated, StatusBadRequest, StatusInternalServerError}
    ensures r.0.status == StatusInternalServerError ==> r.0 == Error(StatusInternalServerError, Internal)
    ensures r.0.status != StatusCreated ==> r.1 == l
    // The created payment is the body's, completed, paid now, appended.
    ensures r.0.status == StatusCreated ==>
      && r.0.Json? && r.0.value.id == |l.payments| + 1 && r.1 == Ledger(l.payments + [r.0.value], l.refunds)
      && r.0.value.bookingId == b.bookingId && r.0.value.userId == b.userId && r.0.value.amount == b.amount
      && r.0.value.currency == b.currency && r.0.value.paymentMethod == b.paymentMethod
      && r.0.value.status == PaymentCompleted && r.0.value.paidAt == Some(now)
      && r.0.value.transactionId == ""
    ensures LedgerValid(l) ==> LedgerValid(r.1)
  {
    if !PaymentBodyBinds(decodeErr, b) then
      (Error(StatusBadRequest, BindingFailed(if decodeErr.Some? then decodeErr.value else bindingMessage)), l)
    else
      var s := CreatePaymentAsWritten(l, Some(AsRequest(b)), true, now, storeErr);
      CreatePreservesInvariants(l, Some(AsRequest(b)), true, now, "", storeErr);
      match s.answer
      case Ok(p) => (Json(StatusCreated, p), s.after)
      case Err(e) =>
        if IsClientError(e) then (Error(StatusBadRequest, Refused(e)), s.after)
        else (Error(StatusInternalServerError, Internal), s.after)
  }

  /** Over HTTP only the first payment is ever created: once the ledger
      holds a payment, every further well-formed request is a 500 that
      changes nothing. */
  lemma SecondPaymentOverHttpFails(
    l: Ledger, b1: PaymentBody, b2: PaymentBody, msg: string, t1: Time, t2: Time)
    requires PaymentBodyBinds(None, b2)
    requires CreatePayment(l, None, b1, msg, t1, None).0.status == StatusCreated
    ensures var once := CreatePayment(l, None, b1, msg, t1, None).1;
      CreatePayment(once, None, b2, msg, t2, None) == (Error(StatusInternalServerError, Internal), once)
  {
    var once := CreatePayment(l, None, b1, msg, t1, None).1;
    assert once.payments[|l.payments|].transactionId == "";
    assert TransactionTaken(once, "");
  }

  /** Binding is stricter than the service's own checks: a body that binds
      is never refused by them, so over HTTP the default currency is never
      applied and a payment request is refused only by binding. */
  lemma BindingSubsumesServiceChecks(b: PaymentBody)
    requires PaymentBodyBinds(None, b)
    ensures ValidatePayment(Some(AsRequest(b))).None?
    ensures NewPayment(AsRequest(b), true, 0, "").currency == b.currency
  {
  }

  // ---------------------------------------------------------------------
  // GET /payments/:id and GET /bookings/:id/payment
  // ---------------------------------------------------------------------

  /** parseUintID: a decimal that fits 32 bits; 0 is accepted. */
  function ParseUintId(raw: string): (r: Option<nat>)
    ensures r.Some? <==> |raw| > 0 && Strings.AllDigits(raw) && Strings.DecimalValue(raw) < Strings.Pow2(32)
    ensures r.Some? ==> r.value == Strings.DecimalValue(raw)
  {
    Strings.ParseUint(raw, 32)
  }

  /** Payment ids print and parse back while they fit 32 bits. */
  lemma ParseUintIdDecimal(n: nat)
    ensures ParseUintId(Strings.Decimal(n)) == if n < Strings.Pow2(32) then Some(n) else None
  {
    Strings.ParseUintDecimal(n, 32);
  }

  function GetPaymentByID(l: Ledger, rawId: string, readErr: Option<string>): (r: Reply<Payment, Problem>)
    ensures ParseUintId(rawId).None? ==> r == Error(StatusBadRequest, BadId)
    ensures r.status == StatusOK <==> ParseUintId(rawId).Some? && readErr.None? && 1 <= ParseUintId(rawId).value <= |l.payments|
    ensures r.status == StatusNotFound <==>
      ParseUintId(rawId).Some? && readErr.None? && !(1 <= ParseUintId(rawId).value <= |l.payments|)
    ensures r.status == StatusOK ==> r.Json? && r.value == l.payments[ParseUintId(rawId).value - 1]
  {
    match ParseUintId(rawId)
    case None => Error(StatusBadRequest, BadId)
    case Some(id) =>
      match Payments.GetPaymentByID(l, id, readErr)
      case Err(e) => LookupFailure(e)
      case Ok(p) => Json(StatusOK, p)
  }

  function GetPaymentByBookingID(
    l: Ledger, rawId: string, parseUuid: string -> Option<Uuid>, readErr: Option<string>): (r: Reply<Payment, Problem>)
    requires LedgerValid(l)
    ensures parseUuid(rawId).None? ==> r == Error(StatusBadRequest, BadUuid)
    ensures r.status == StatusNotFound <==>
      parseUuid(rawId).Some? && readErr.None? &&
      forall i :: 0 <= i < |l.payments| ==> l.payments[i].bookingId != parseUuid(rawId).value
    // The answer is the booking's earliest payment.
    ensures r.status == StatusOK ==>
      && r.Json? && r.value in l.payments && r.value.bookingId == parseUuid(rawId).value
      && forall i :: 0 <= i < r.value.id - 1 ==> l.payments[i].bookingId != r.value.bookingId
  {
    match parseUuid(rawId)
    case None => Error(StatusBadRequest, BadUuid)
    case Some(booking) =>
      match Settlement.FindByBooking(l, booking, readErr)
      case Err(e) => LookupFailure(e)
      case Ok(p) => Json(StatusOK, p)
  }

  // ---------------------------------------------------------------------
  // GET /payments (history)
  // ---------------------------------------------------------------------

  const DefaultHistoryLimit: int := 10

  /** parseLimitOffset: each value replaces its default (10 and 0) only
      when it is present and parses as an int; negative values pass. */
  function ParseLimitOffset(limitRaw: string, offsetRaw: string): (r: (int, int))
    ensures Strings.Atoi(limitRaw).None? ==> r.0 == DefaultHistoryLimit
    ensures Strings.Atoi(offsetRaw).None? ==> r.1 == 0
    ensures Strings.Atoi(limitRaw).Some? ==> r.0 == Strings.Atoi(limitRaw).value
    ensures Strings.Atoi(offsetRaw).Some? ==> r.1 == Strings.Atoi(offsetRaw).value
  {
    var limit := if limitRaw != "" && Strings.Atoi(limitRaw).Some? then Strings.Atoi(limitRaw).value else DefaultHistoryLimit;
    var offset := if offsetRaw != "" && Strings.Atoi(offsetRaw).Some? then Strings.Atoi(offsetRaw).value else 0;
    (limit, offset)
  }

  /** What the query parser makes of typical inputs: absent values take
      the defaults, decimals (with a sign) are read, anything else keeps
      the default. */
  lemma ParseLimitOffsetExamples(n: nat, m: nat)
    requires n <= Strings.MaxInt64 && m <= Strings.MaxInt64
    ensures ParseLimitOffset("", "") == (DefaultHistoryLimit, 0)
    ensures ParseLimitOffset(Strings.Decimal(n), Strings.Decimal(m)) == (n, m)
    ensures ParseLimitOffset("-" + Strings.Decimal(n), "-" + Strings.Decimal(m)) == (-(n as int), -(m as int))
    ensures ParseLimitOffset("1x", "1x") == (DefaultHistoryLimit, 0)
  {
    Strings.AtoiDecimal(n);
    Strings.AtoiDecimal(m);
    Strings.AtoiRejectsNonNumeric("1x", 1);
  }

  /** The user whose history is asked for: the X-User-Id header, else the
      user_id query parameter. */
  function HistoryUser(header: string, query: string, parseUuid: string -> Option<Uuid>): (r: Result<Uuid, Problem>)
    ensures header == "" && query == "" ==> r == Err(MissingUserId)
    ensures header != "" ==> (r.Ok? <==> parseUuid(header).Some?)
    ensures header != "" && r.Ok? ==> r.value == parseUuid(header).value
    ensures header == "" && query != "" ==> (r.Ok? <==> parseUuid(query).Some?)
    ensures header == "" && r.Ok? ==> r.value == parseUuid(query).value
    ensures r.Err? ==> r.error == MissingUserId || r.error == BadUuid
  {
    var raw := if header != "" then header else query;
    if raw == "" then Err(MissingUserId)
    else
      match parseUuid(raw)
      case None => Err(BadUuid)
      case Some(u) => Ok(u)
  }

  /** The repository's bounds on the page: a non-positive limit becomes 10,
      a negative offset 0. */
  function ClampPage(limit: int, offset: int): (r: (nat, nat))
    ensures r.0 >= 1 && (limit > 0 ==> r.0 == limit) && (limit <= 0 ==> r.0 == DefaultHistoryLimit)
    ensures (offset >= 0 ==> r.1 == offset) && (offset < 0 ==> r.1 == 0)
  {
    (if limit <= 0 then DefaultHistoryLimit else limit, if offset < 0 then 0 else offset)
  }

  /** Rows numbered by their auto-increment id, starting at 1. */
  predicate IdsFromOne(ps: seq<Payment>)
  {
    forall i :: 0 <= i < |ps| ==> ps[i].id == i + 1
  }

  /** The user's payments among `ps`, most recently created first. */
  function UserPaymentsNewestFirst(ps: seq<Payment>, user: Uuid): (r: seq<Payment>)
    ensures forall p :: p in r <==> p in ps && p.userId == user
    ensures IdsFromOne(ps) ==> forall i, j :: 0 <= i < j < |r| ==> r[i].id > r[j].id
    ensures IdsFromOne(ps) ==> forall i :: 0 <= i < |r| ==> 1 <= r[i].id <= |ps|
    decreases |ps|
  {
    if |ps| == 0 then []
    else
      var last := ps[|ps| - 1];
      var prefix := ps[..|ps| - 1];
      var rest := UserPaymentsNewestFirst(prefix, user);
      assert ps == prefix + [last];
      NewestFirstStep(prefix, last, user, rest);
      if last.userId == user then [last] + rest else rest
  }

  /** The recursive step of UserPaymentsNewestFirst: putting the newest
      payment in front keeps the membership and the order. */
  lemma NewestFirstStep(prefix: seq<Payment>, last: Payment, user: Uuid, rest: seq<Payment>)
    requires forall p :: p in rest <==> p in prefix && p.userId == user
    requires IdsFromOne(prefix) ==> forall i, j :: 0 <= i < j < |rest| ==> rest[i].id > rest[j].id
    requires IdsFromOne(prefix) ==> forall i :: 0 <= i < |rest| ==> 1 <= rest[i].id <= |prefix|
    ensures var ps := prefix + [last];
      var r := if last.userId == user then [last] + rest else rest;
      && (forall p :: p in r <==> p in ps && p.userId == user)
      && (IdsFromOne(ps) ==> forall i, j :: 0 <= i < j < |r| ==> r[i].id > r[j].id)
      && (IdsFromOne(ps) ==> forall i :: 0 <= i < |r| ==> 1 <= r[i].id <= |ps|)
  {
    var ps := prefix + [last];
    assert forall p :: p in ps <==> p in prefix || p == last;
    if IdsFromOne(ps) {
      assert IdsFromOne(prefix) by {
        forall i | 0 <= i < |prefix| ensures prefix[i].id == i + 1 {
          assert ps[i] == prefix[i];
        }
      }
      assert last.id == |ps| by { assert ps[|prefix|] == last; }
    }
  }

  /** dto.PaymentHistoryResponse. */
  datatype History = History(payments: seq<Payment>, total: nat, count: nat)

  /** GetPaymentsByUserID in the repository: the total count of the user's
      payments and one page of them, newest first. Creation order is id
      order. */
  function UserHistory(l: Ledger, user: Uuid, limit: int, offset: int, readErr: Option<string>): (r: Result<History, PaymentError>)
    requires LedgerValid(l)
    ensures r.Ok? <==> readErr.None?
    ensures r.Ok? ==>
      var all := UserPaymentsNewestFirst(l.payments, user);
      && r.value.total == |all| && r.value.count == |r.value.payments|
      && r.value.payments == Seqs.Window(all, ClampPage(limit, offset).1, ClampPage(limit, offset).0)
    ensures r.Ok? ==> forall p :: p in r.value.payments ==> p in l.payments && p.userId == user
  {
    if readErr.Some? then Err(Database(readErr.value))
    else
      var all := UserPaymentsNewestFirst(l.payments, user);
      var page := Seqs.Window(all, ClampPage(limit, offset).1, ClampPage(limit, offset).0);
      assert forall k :: 0 <= k < |page| ==> page[k] in all;
      Ok(History(page, |all|, |page|))
  }

  /** Consecutive history pages neither overlap nor skip payments: with a
      positive limit, the page at `offset` followed by the page at
      `offset + limit` is the double-size page at `offset`. */
  lemma HistoryPagesAreConsecutive(l: Ledger, user: Uuid, limit: int, offset: int)
    requires LedgerValid(l) && limit > 0 && offset >= 0
    ensures UserHistory(l, user, limit, offset, None).value.payments
          + UserHistory(l, user, limit, offset + limit, None).value.payments
         == UserHistory(l, user, 2 * limit, offset, None).value.payments
  {
    Seqs.WindowsAdjacent(UserPaymentsNewestFirst(l.payments, user), offset, limit);
  }

  /** GetPaymentsHistory. */
  function GetPaymentsHistory(
    l: Ledger, header: string, query: string, parseUuid: string -> Option<Uuid>,
    limitRaw: string, offsetRaw: string, readErr: Option<string>): (r: Reply<History, Problem>)
    requires LedgerValid(l)
    ensures r.status == StatusBadRequest <==> HistoryUser(header, query, parseUuid).Err?
    ensures r.status == StatusInternalServerError <==> HistoryUser(header, query, parseUuid).Ok? && readErr.Some?
    ensures r.status == StatusOK ==> r.Json? && r.value.count == |r.value.payments|
    // At most the requested page size (10 by default), all of the asked user.
    ensures r.status == StatusOK ==>
      && |r.value.payments| <= ClampPage(ParseLimitOffset(limitRaw, offsetRaw).0, 0).0
      && forall p :: p in r.value.payments ==> p in l.payments && p.userId == HistoryUser(header, query, parseUuid).value
    // The page itself: the clamped window of the user's payments, newest
    // first, with the user's total.
    ensures r.status == StatusOK ==>
      var all := UserPaymentsNewestFirst(l.payments, HistoryUser(header, query, parseUuid).value);
      var page := ClampPage(ParseLimitOffset(limitRaw, offsetRaw).0, ParseLimitOffset(limitRaw, offsetRaw).1);
      && r.value.payments == Seqs.Window(all, page.1, page.0)
      && r.value.total == |all|
  {
    match HistoryUser(header, query, parseUuid)
    case Err(e) => Error(StatusBadRequest, e)
    case Ok(user) =>
      var (limit, offset) := ParseLimitOffset(limitRaw, offsetRaw);
      match UserHistory(l, user, limit, offset, readErr)
      case Err(_) => Error(StatusInternalServerError, Internal)
      case Ok(h) => Json(StatusOK, h)
  }

  // ---------------------------------------------------------------------
  // POST /payments/:id/refund
  // ---------------------------------------------------------------------

  datatype RefundBody = RefundBody(amount: Strings.Int64, reason: string)

  /** The body's binding tags: a positive amount and a reason of 5 to 500
      characters. */
  predicate RefundBodyBinds(decodeErr: Option<string>, b: RefundBody)
  {
    decodeErr.None? && b.amount > 0 && 5 <= |b.reason| <= 500
  }

  /** CreateRefund. The id is parsed before the body is bound. */
  function CreateRefund(
    l: Ledger, rawId: string, decodeErr: Option<string>, b: RefundBody, bindingMessage: string,
    now: Time, faults: RefundFaults): (r: (Reply<Refund, Problem>, Ledger))
    ensures ParseUintId(rawId).None? ==> r == (Error(StatusBadRequest, BadId), l)
    ensures ParseUintId(rawId).Some? && !RefundBodyBinds(decodeErr, b) ==>
      r.0.status == StatusBadRequest && r.1 == l
    ensures r.0.status == StatusCreated <==>
      && ParseUintId(rawId).Some? && RefundBodyBinds(decodeErr, b)
      && ValidateRefund(l, ParseUintId(rawId).value, Some(RefundRequest(b.amount, b.reason)), faults.read).None?
      && faults.refundWrite.None? && faults.paymentWrite.None?
    ensures r.0.status == StatusNotFound <==>
      && ParseUintId(rawId).Some? && RefundBodyBinds(decodeErr, b) && faults.read.None?
      && !(1 <= ParseUintId(rawId).value <= |l.payments|)
    ensures r.0.status in {StatusCreated, StatusBadRequest, StatusNotFound, StatusInternalServerError}
    ensures r.0.status == StatusInternalServerError ==> r.0 == Error(StatusInternalServerError, Internal)
    ensures r.0.status == StatusCreated ==> r.0.Json? && r.0.value.amount == b.amount && r.0.value.reason == b.reason
    // A 201 answers the appended refund row, and the payment it refunds is
    // updated while every other payment stays as it was.
    ensures r.0.status == StatusCreated ==>
      var id := ParseUintId(rawId).value;
      && r.0.value == Refund(|l.refunds| + 1, id, b.amount, b.reason, RefundCompleted)
      && r.1.refunds == l.refunds + [r.0.value]
      && 1 <= id <= |l.payments| && |r.1.payments| == |l.payments|
      && r.1.payments[id - 1] == ApplyRefund(l.payments[id - 1], b.amount, now)
      && (forall i :: 0 <= i < |l.payments| && i != id - 1 ==> r.1.payments[i] == l.payments[i])
    // A failed payment write after the refund row is a 500 that keeps the row.
    ensures (&& ParseUintId(rawId).Some? && RefundBodyBinds(decodeErr, b)
             && ValidateRefund(l, ParseUintId(rawId).value, Some(RefundRequest(b.amount, b.reason)), faults.read).None?
             && faults.refundWrite.None? && faults.paymentWrite.Some?) ==>
      && r.0 == Error(StatusInternalServerError, Internal)
      && r.1.refunds == l.refunds + [Refund(|l.refunds| + 1, ParseUintId(rawId).value, b.amount, b.reason, RefundCompleted)]
      && r.1.payments == l.payments
    // Every other refusal leaves the ledger alone.
    ensures
      !(&& ParseUintId(rawId).Some? && RefundBodyBinds(decodeErr, b)
        && ValidateRefund(l, ParseUintId(rawId).value, Some(RefundRequest(b.amount, b.reason)), faults.read).None?
        && faults.refundWrite.None?)
      ==> r.1 == l
    ensures LedgerValid(l) ==> LedgerValid(r.1)
  {
    match ParseUintId(rawId)
    case None => (Error(StatusBadRequest, BadId), l)
    case Some(id) =>
      if !RefundBodyBinds(decodeErr, b) then
        (Error(StatusBadRequest, BindingFailed(if decodeErr.Some? then decodeErr.value else bindingMessage)), l)
      else RefundReply(l, id, b, now, faults)
  }

  /** The refund service's answer to a bound request for payment `id`, as
      the handler reports it. */
  function RefundReply(l: Ledger, id: nat, b: RefundBody, now: Time, faults: RefundFaults): (r: (Reply<Refund, Problem>, Ledger))
    ensures var ok := ValidateRefund(l, id, Some(RefundRequest(b.amount, b.reason)), faults.read).None?;
      && (r.0.status == StatusCreated <==> ok && faults.refundWrite.None? && faults.paymentWrite.None?)
      && (b.amount > 0 ==> (r.0.status == StatusNotFound <==> faults.read.None? && !(1 <= id <= |l.payments|)))
      && r.0.status in {StatusCreated, StatusBadRequest, StatusNotFound, StatusInternalServerError}
      && (r.0.status == StatusInternalServerError ==> r.0 == Error(StatusInternalServerError, Internal))
      && (r.0.status == StatusCreated ==>
            && r.0.Json?
            && r.0.value == Refund(|l.refunds| + 1, id, b.amount, b.reason, RefundCompleted)
            && r.1.refunds == l.refunds + [r.0.value]
            && 1 <= id <= |l.payments| && |r.1.payments| == |l.payments|
            && r.1.payments[id - 1] == ApplyRefund(l.payments[id - 1], b.amount, now)
            && (forall i :: 0 <= i < |l.payments| && i != id - 1 ==> r.1.payments[i] == l.payments[i]))
      && (ok && faults.refundWrite.None? && faults.paymentWrite.Some? ==>
            && r.0 == Error(StatusInternalServerError, Internal)
            && r.1.refunds == l.refunds + [Refund(|l.refunds| + 1, id, b.amount, b.reason, RefundCompleted)]
            && r.1.payments == l.payments)
      && (!(ok && faults.refundWrite.None?) ==> r.1 == l)
      && (LedgerValid(l) ==> LedgerValid(r.1))
  {
    var s := Payments.CreateRefund(l, id, Some(RefundRequest(b.amount, b.reason)), now, faults);
    Settlement.RefundKeepsInvariants(l, id, Some(RefundRequest(b.amount, b.reason)), now, faults);
    match s.answer
    case Ok(refund) => (Json(StatusCreated, refund), s.after)
    case Err(e) =>
      if e == NotFound then (Error(StatusNotFound, PaymentMissing), s.after)
      else if IsClientError(e) then (Error(StatusBadRequest, Refused(e)), s.after)
      else (Error(StatusInternalServerError, Internal), s.after)
  }

  /** Over HTTP a refund of a Completed payment beyond its remainder is a
      400 that changes nothing, and one of a payment that is not Completed
      is a 400 too. */
  lemma RefundRefusalsAreClientErrors(l: Ledger, id: nat, b: RefundBody, now: Time)
    requires LedgerValid(l) && 1 <= id <= |l.payments| && RefundBodyBinds(None, b)
    ensures
      var p := l.payments[id - 1];
      var r := CreateRefund(l, Strings.Decimal(id), None, b, "", now, NoFaults);
      && (id < Strings.Pow2(32) && p.status == PaymentCompleted && b.amount > p.amount - p.refundedAmount ==>
            r == (Error(StatusBadRequest, Refused(RefundAmountExceed)), l))
      && (id < Strings.Pow2(32) && p.status != PaymentCompleted ==>
            r == (Error(StatusBadRequest, Refused(PaymentNotComplete)), l))
  {
    var p := l.payments[id - 1];
    if id < Strings.Pow2(32) && p.status == PaymentCompleted && b.amount > p.amount - p.refundedAmount {
      ValidationRefuses(l, id, b);
      RefusedById(l, id, b, now, RefundAmountExceed);
    }
    if id < Strings.Pow2(32) && p.status != PaymentCompleted {
      ValidationRefuses(l, id, b);
      RefusedById(l, id, b, now, PaymentNotComplete);
    }
  }

  /** What the service's validation says about a well-formed refund of a
      payment that exists. */
  lemma ValidationRefuses(l: Ledger, id: nat, b: RefundBody)
    requires LedgerValid(l) && 1 <= id <= |l.payments| && RefundBodyBinds(None, b)
    ensures var p := l.payments[id - 1];
      var e := ValidateRefund(l, id, Some(RefundRequest(b.amount, b.reason)), None);
      && (p.status == PaymentCompleted && b.amount > p.amount - p.refundedAmount ==> e == Some(RefundAmountExceed))
      && (p.status != PaymentCompleted ==> e == Some(PaymentNotComplete))
  {
    var p := l.payments[id - 1];
    assert Payments.GetPaymentByID(l, id, None) == Ok(p);
    assert Available(p) == p.amount - p.refundedAmount;
  }

  /** RefusedOverHttp for the decimal form of a payment id. */
  lemma RefusedById(l: Ledger, id: nat, b: RefundBody, now: Time, e: PaymentError)
    requires id < Strings.Pow2(32) && RefundBodyBinds(None, b)
    requires ValidateRefund(l, id, Some(RefundRequest(b.amount, b.reason)), None) == Some(e)
    requires e != NotFound && IsClientError(e)
    ensures CreateRefund(l, Strings.Decimal(id), None, b, "", now, NoFaults) == (Error(StatusBadRequest, Refused(e)), l)
  {
    ParseUintIdDecimal(id);
    RefusedOverHttp(l, Strings.Decimal(id), id, b, now, e);
  }

  /** A refund the service refuses with a client error is a 400 naming that
      error, and the ledger is left as it was. */
  lemma RefusedOverHttp(l: Ledger, rawId: string, id: nat, b: RefundBody, now: Time, e: PaymentError)
    requires ParseUintId(rawId) == Some(id) && RefundBodyBinds(None, b)
    requires ValidateRefund(l, id, Some(RefundRequest(b.amount, b.reason)), None) == Some(e)
    requires e != NotFound && IsClientError(e)
    ensures CreateRefund(l, rawId, None, b, "", now, NoFaults) == (Error(StatusBadRequest, Refused(e)), l)
  {
    var s := Payments.CreateRefund(l, id, Some(RefundRequest(b.amount, b.reason)), now, NoFaults);
    assert s.answer == Err(e) && s.after == l;
  }
}
