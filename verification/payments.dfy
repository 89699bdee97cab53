/** The payment service's ledger: payments and refunds as the database keeps
    them, payment creation and the refund transition. Database failures and
    the clock are parameters; the database's unique index on
    `transaction_id` is modelled, because it decides whether an insert
    succeeds. */
module Payments {
  import opened Wrappers
  import Strings

  /** A UUID; `NilUuid` is uuid.Nil. */
  type Uuid = nat

  const NilUuid: Uuid := 0

  type Time = int

  // ---------------------------------------------------------------------
  // Records
  // ---------------------------------------------------------------------

  datatype PaymentStatus = PaymentPending | PaymentCompleted | PaymentRefunded | PaymentFailed

  datatype RefundStatus = RefundPending | RefundCompleted | RefundFailed

  const MethodCard: string := "card"
  const MethodCash: string := "cash"
  const DefaultCurrency: string := "RUB"

  /** The payment methods the service accepts. */
  predicate IsValidPaymentMethod(m: string)
  {
    m == MethodCard || m == MethodCash
  }

  /** models.Payment; `id` is the autoincrement primary key. */
  datatype Payment = Payment(
    id: nat, bookingId: Uuid, userId: Uuid, amount: Strings.Int64, currency: string,
    paymentMethod: string, status: PaymentStatus, transactionId: string,
    refundedAmount: Strings.Int64, paidAt: Option<Time>, refundedAt: Option<Time>)

  /** models.Refund. */
  datatype Refund = Refund(id: nat, paymentId: nat, amount: Strings.Int64, reason: string, status: RefundStatus)

  /** dto.CreatePaymentRequest. */
  datatype CreatePaymentRequest = CreatePaymentRequest(
    bookingId: Uuid, userId: Uuid, amount: Strings.Int64, currency: string, paymentMethod: string)

  /** dto.RefundRequest. */
  datatype RefundRequest = RefundRequest(amount: Strings.Int64, reason: string)

  datatype PaymentError =
    | EmptyRequest
    | InvalidAmount
    | InvalidMethod
    | PaymentNotComplete
    | RefundAmountExceed
      /** repository.ErrNotFound (wrapped by the repository). */
    | NotFound
      /** The database refused an insert that repeats a unique column. */
    | UniqueViolation(column: string)
      /** Any other database failure, passed through. */
    | Database(cause: string)

  /** The two tables. Row i of `payments` has id i+1, as autoincrement
      assigns them; likewise for `refunds`. */
  datatype Ledger = Ledger(payments: seq<Payment>, refunds: seq<Refund>)

  const EmptyLedger: Ledger := Ledger([], [])

  /** The answer of an operation and the ledger it leaves behind. */
  datatype Step<T> = Step(answer: Result<T, PaymentError>, after: Ledger)

  // ---------------------------------------------------------------------
  // Invariants
  // ---------------------------------------------------------------------

  /** What every stored payment satisfies: a positive amount, a
      refunded amount between 0 and the amount, Refunded exactly when fully
      refunded, a refund time exactly when Refunded, and a paid time exactly
      when not Pending. */
  predicate PaymentValid(p: Payment)
  {
    && 0 < p.amount
    && 0 <= p.refundedAmount <= p.amount
    && p.status != PaymentFailed
    && (p.status == PaymentPending <==> p.paidAt.None?)
    && (p.status == PaymentPending ==> p.refundedAmount == 0)
    && (p.status == PaymentRefunded <==> p.refundedAmount == p.amount)
    && (p.refundedAt.Some? <==> p.status == PaymentRefunded)
  }

  predicate TransactionTaken(l: Ledger, txn: string)
  {
    exists i :: 0 <= i < |l.payments| && l.payments[i].transactionId == txn
  }

  predicate LedgerValid(l: Ledger)
  {
    && (forall i :: 0 <= i < |l.payments| ==> l.payments[i].id == i + 1 && PaymentValid(l.payments[i]))
    && (forall i, j :: 0 <= i < j < |l.payments| ==>
          l.payments[i].transactionId != l.payments[j].transactionId)
    && (forall k :: 0 <= k < |l.refunds| ==>
          && l.refunds[k].id == k + 1 && l.refunds[k].amount > 0
          && 1 <= l.refunds[k].paymentId <= |l.payments|)
  }

  /** Total of the refund rows recorded against a payment. */
  function RefundedSum(rs: seq<Refund>, paymentId: nat): int
  {
    if |rs| == 0 then 0
    else
      var last := rs[|rs| - 1];
      RefundedSum(rs[..|rs| - 1], paymentId) + (if last.paymentId == paymentId then last.amount else 0)
  }

  /** Every payment's refunded amount is the sum of its refund rows. */
  predicate Reconciled(l: Ledger)
  {
    forall i :: 0 <= i < |l.payments| ==> RefundedSum(l.refunds, i + 1) == l.payments[i].refundedAmount
  }

  lemma RefundedSumAppend(rs: seq<Refund>, r: Refund, paymentId: nat)
    ensures RefundedSum(rs + [r], paymentId)
         == RefundedSum(rs, paymentId) + (if r.paymentId == paymentId then r.amount else 0)
  {
    assert (rs + [r])[..|rs|] == rs;
  }

  // ---------------------------------------------------------------------
  // Repository
  // ---------------------------------------------------------------------

  /** PaymentRepository.GetPaymentByID (soft-deleted rows are not modelled). */
  function GetPaymentByID(l: Ledger, id: nat, readErr: Option<string>): (r: Result<Payment, PaymentError>)
    ensures readErr.Some? ==> r == Err(Database(readErr.value))
    ensures readErr.None? ==> (r.Ok? <==> 1 <= id <= |l.payments|)
    ensures r.Err? && readErr.None? ==> r.error == NotFound
    ensures r.Ok? && LedgerValid(l) ==> r.value.id == id && r.value in l.payments
  {
    if readErr.Some? then Err(Database(readErr.value))
    else if 1 <= id <= |l.payments| then Ok(l.payments[id - 1])
    else Err(NotFound)
  }

  /** PaymentRepository.CreatePayment: the row gets the next id unless the
      database refuses it. */
  function InsertPayment(l: Ledger, p: Payment, storeErr: Option<string>): (s: Step<Payment>)
    ensures s.answer.Ok? <==> storeErr.None? && !TransactionTaken(l, p.transactionId)
    ensures s.answer.Err? ==> s.after == l
    ensures storeErr.None? && TransactionTaken(l, p.transactionId) ==>
      s.answer == Err(UniqueViolation("transaction_id"))
    ensures s.answer.Ok? ==>
      && s.answer.value == p.(id := |l.payments| + 1)
      && s.after == Ledger(l.payments + [s.answer.value], l.refunds)
  {
    if storeErr.Some? then Step(Err(Database(storeErr.value)), l)
    else if TransactionTaken(l, p.transactionId) then Step(Err(UniqueViolation("transaction_id")), l)
    else
      var stored := p.(id := |l.payments| + 1);
      Step(Ok(stored), Ledger(l.payments + [stored], l.refunds))
  }

  // ---------------------------------------------------------------------
  // createPayment
  // ---------------------------------------------------------------------

  /** The checks of createPayment, in source order. */
  function ValidatePayment(req: Option<CreatePaymentRequest>): (e: Option<PaymentError>)
    ensures e.None? <==> req.Some? && req.value.amount > 0 && IsValidPaymentMethod(req.value.paymentMethod)
    ensures e == Some(EmptyRequest) <==> req.None?
    ensures e == Some(InvalidAmount) <==> req.Some? && req.value.amount <= 0
    ensures e == Some(InvalidMethod) <==>
      req.Some? && req.value.amount > 0 && !IsValidPaymentMethod(req.value.paymentMethod)
  {
    if req.None? then Some(EmptyRequest)
    else if req.value.amount <= 0 then Some(InvalidAmount)
    else if !IsValidPaymentMethod(req.value.paymentMethod) then Some(InvalidMethod)
    else None
  }

  /** The row createPayment builds for a request that passed validation. */
  function NewPayment(req: CreatePaymentRequest, completed: bool, now: Time, txn: string): (p: Payment)
    ensures p.bookingId == req.bookingId && p.userId == req.userId && p.amount == req.amount
    ensures p.currency == (if req.currency == "" then DefaultCurrency else req.currency)
    ensures p.currency != "" && (req.currency != "" ==> p.currency == req.currency)
    ensures p.paymentMethod == req.paymentMethod && p.transactionId == txn
    ensures p.status == (if completed then PaymentCompleted else PaymentPending)
    ensures p.paidAt.Some? <==> completed
    ensures p.paidAt.Some? ==> p.paidAt.value == now
    ensures p.refundedAmount == 0 && p.refundedAt.None?
  {
    Payment(0, req.bookingId, req.userId, req.amount,
            if req.currency == "" then DefaultCurrency else req.currency,
            req.paymentMethod, if completed then PaymentCompleted else PaymentPending, txn,
            0, if completed then Some(now) else None, None)
  }

  /** createPayment with the transaction id the new row receives as a
      parameter. */
  function CreatePaymentRow(
    l: Ledger, req: Option<CreatePaymentRequest>, completed: bool, now: Time,
    txn: string, storeErr: Option<string>): (s: Step<Payment>)
    ensures ValidatePayment(req).Some? ==> s == Step(Err(ValidatePayment(req).value), l)
    ensures s.answer.Err? ==> s.after == l
    ensures s.answer.Ok? <==>
      ValidatePayment(req).None? && storeErr.None? && !TransactionTaken(l, txn)
    ensures ValidatePayment(req).None? && storeErr.None? && TransactionTaken(l, txn) ==>
      s.answer == Err(UniqueViolation("transaction_id"))
    ensures s.answer.Ok? ==>
      && s.answer.value == NewPayment(req.value, completed, now, txn).(id := |l.payments| + 1)
      && s.after == Ledger(l.payments + [s.answer.value], l.refunds)
  {
    match ValidatePayment(req)
    case Some(e) => Step(Err(e), l)
    case None => InsertPayment(l, NewPayment(req.value, completed, now, txn), storeErr)
  }

  /** createPayment as written: the transaction id is never assigned, so
      every row is inserted with the empty transaction id. */
  function CreatePaymentAsWritten(
    l: Ledger, req: Option<CreatePaymentRequest>, completed: bool, now: Time,
    storeErr: Option<string>): (s: Step<Payment>)
    ensures s.answer.Ok? ==> s.answer.value.transactionId == ""
    ensures TransactionTaken(l, "") ==> s.answer.Err? && s.after == l
  {
    CreatePaymentRow(l, req, completed, now, "", storeErr)
  }

  /** Under the unique index, the service as written can store at most one
      payment, whatever requests arrive: the second row repeats the empty
      transaction id. */
  lemma {:induction false} AsWrittenStoresAtMostOnePayment(
    reqs: seq<Option<CreatePaymentRequest>>, completed: bool, now: Time)
    ensures |CreateAllAsWritten(EmptyLedger, reqs, completed, now).payments| <= 1
  {
    CreateAllAsWrittenBound(EmptyLedger, reqs, completed, now);
  }

  /** Feeds requests one after another to the service as written. */
  function CreateAllAsWritten(
    l: Ledger, reqs: seq<Option<CreatePaymentRequest>>, completed: bool, now: Time): Ledger
    decreases |reqs|
  {
    if |reqs| == 0 then l
    else CreateAllAsWritten(CreatePaymentAsWritten(l, reqs[0], completed, now, None).after, reqs[1..], completed, now)
  }

  lemma {:induction false} CreateAllAsWrittenBound(
    l: Ledger, reqs: seq<Option<CreatePaymentRequest>>, completed: bool, now: Time)
    requires |l.payments| <= 1
    requires |l.payments| == 1 ==> l.payments[0].transactionId == ""
    ensures |CreateAllAsWritten(l, reqs, completed, now).payments| <= 1
    decreases |reqs|
  {
    if |reqs| > 0 {
      var next := CreatePaymentAsWritten(l, reqs[0], completed, now, None).after;
      if |l.payments| == 1 {
        assert TransactionTaken(l, "") by { assert l.payments[0].transactionId == ""; }
      }
      CreateAllAsWrittenBound(next, reqs[1..], completed, now);
    }
  }

  /** Two valid requests in a row: the second is refused by the database. */
  lemma SecondPaymentRefused(req1: CreatePaymentRequest, req2: CreatePaymentRequest, now: Time)
    requires ValidatePayment(Some(req1)).None? && ValidatePayment(Some(req2)).None?
    ensures
      var first := CreatePaymentAsWritten(EmptyLedger, Some(req1), false, now, None);
      && first.answer.Ok?
      && CreatePaymentAsWritten(first.after, Some(req2), false, now, None).answer
         == Err(UniqueViolation("transaction_id"))
  {
    var first := CreatePaymentAsWritten(EmptyLedger, Some(req1), false, now, None);
    assert first.after.payments[0].transactionId == "";
  }

  /** PaymentService.CreatePayment, with a fresh transaction id `txn`
      assigned to every new row: a Completed payment paid at `now`. */
  function CreatePayment(
    l: Ledger, req: Option<CreatePaymentRequest>, now: Time, txn: string,
    storeErr: Option<string>): (s: Step<Payment>)
    ensures s.answer.Ok? <==> ValidatePayment(req).None? && storeErr.None? && !TransactionTaken(l, txn)
    ensures s.answer.Ok? ==>
      s.answer.value.status == PaymentCompleted && s.answer.value.paidAt == Some(now)
    ensures LedgerValid(l) ==> LedgerValid(s.after)
    ensures Reconciled(l) && LedgerValid(l) ==> Reconciled(s.after)
  {
    var s := CreatePaymentRow(l, req, true, now, txn, storeErr);
    CreatePreservesInvariants(l, req, true, now, txn, storeErr);
    s
  }

  /** PaymentService.CreatePendingPayment, with a fresh transaction id: a
      Pending payment with no paid time. */
  function CreatePendingPayment(
    l: Ledger, req: Option<CreatePaymentRequest>, txn: string,
    storeErr: Option<string>): (s: Step<Payment>)
    ensures s.answer.Ok? <==> ValidatePayment(req).None? && storeErr.None? && !TransactionTaken(l, txn)
    ensures s.answer.Ok? ==>
      s.answer.value.status == PaymentPending && s.answer.value.paidAt.None?
    ensures LedgerValid(l) ==> LedgerValid(s.after)
    ensures Reconciled(l) && LedgerValid(l) ==> Reconciled(s.after)
  {
    // The pending variant never reads the clock.
    var s := CreatePaymentRow(l, req, false, 0, txn, storeErr);
    CreatePreservesInvariants(l, req, false, 0, txn, storeErr);
    s
  }

  lemma CreatePreservesInvariants(
    l: Ledger, req: Option<CreatePaymentRequest>, completed: bool, now: Time,
    txn: string, storeErr: Option<string>)
    ensures var s := CreatePaymentRow(l, req, completed, now, txn, storeErr);
      && (LedgerValid(l) ==> LedgerValid(s.after))
      && (LedgerValid(l) && Reconciled(l) ==> Reconciled(s.after))
  {
    var s := CreatePaymentRow(l, req, completed, now, txn, storeErr);
    if s.answer.Ok? && LedgerValid(l) {
      var n := |l.payments|;
      assert s.after.payments[n] == s.answer.value;
      forall i | 0 <= i < n + 1
        ensures RefundedSum(l.refunds, i + 1) == s.after.payments[i].refundedAmount || !Reconciled(l)
      {
        if i == n { RefundsOfUnknownPayment(l.refunds, n + 1, n); }
      }
      forall i, j | 0 <= i < j < n + 1
        ensures s.after.payments[i].transactionId != s.after.payments[j].transactionId
      {
        if j == n { assert l.payments[i].transactionId != txn; }
      }
    }
  }

  /** A payment id beyond every refund row's payment id has no refunds. */
  lemma {:induction false} RefundsOfUnknownPayment(rs: seq<Refund>, paymentId: nat, bound: nat)
    requires forall k :: 0 <= k < |rs| ==> rs[k].paymentId <= bound
    requires paymentId > bound
    ensures RefundedSum(rs, paymentId) == 0
  {
    if |rs| > 0 {
      RefundsOfUnknownPayment(rs[..|rs| - 1], paymentId, bound);
    }
  }

  /** No lookup by booking id happens on creation: two requests for the same
      booking, given distinct fresh transaction ids, give two payments. */
  lemma RepeatedRequestsCreateDistinctPayments(
    l: Ledger, req: CreatePaymentRequest, t1: string, t2: string)
    requires ValidatePayment(Some(req)).None?
    requires t1 != t2 && !TransactionTaken(l, t1) && !TransactionTaken(l, t2)
    ensures
      var first := CreatePendingPayment(l, Some(req), t1, None);
      var second := CreatePendingPayment(first.after, Some(req), t2, None);
      && first.answer.Ok? && second.answer.Ok?
      && first.answer.value.id != second.answer.value.id
      && first.answer.value.bookingId == second.answer.value.bookingId == req.bookingId
      && |second.after.payments| == |l.payments| + 2
  {
    var first := CreatePendingPayment(l, Some(req), t1, None);
    assert first.after.payments == l.payments + [first.answer.value];
  }

  // ---------------------------------------------------------------------
  // CreateRefund
  // ---------------------------------------------------------------------

  /** Failures of the three database calls CreateRefund makes. */
  datatype RefundFaults = RefundFaults(read: Option<string>, refundWrite: Option<string>, paymentWrite: Option<string>)

  const NoFaults: RefundFaults := RefundFaults(None, None, None)

  /** `Amount - RefundedAmount` in int64 arithmetic: what is left to refund. */
  function Available(p: Payment): Strings.Int64
  {
    Strings.WrapInt64(p.amount - p.refundedAmount)
  }

  /** The payment after `amount` more has been refunded at `now`, with the
      addition in int64 arithmetic. */
  function ApplyRefund(p: Payment, amount: Strings.Int64, now: Time): (q: Payment)
    ensures Strings.InInt64(p.refundedAmount + amount) ==> q.refundedAmount == p.refundedAmount + amount
    ensures q.refundedAmount >= p.amount ==> q.status == PaymentRefunded && q.refundedAt == Some(now)
    ensures q.refundedAmount < p.amount ==> q.status == p.status && q.refundedAt == p.refundedAt
    ensures q.(refundedAmount := p.refundedAmount, status := p.status, refundedAt := p.refundedAt) == p
  {
    var q := p.(refundedAmount := Strings.WrapInt64(p.refundedAmount + amount));
    if q.refundedAmount >= q.amount then q.(status := PaymentRefunded, refundedAt := Some(now)) else q
  }

  /** In a valid payment no refund arithmetic wraps: what is available is
      the exact difference, and the new refunded amount is the exact sum. */
  lemma RefundArithmeticExact(p: Payment, amount: Strings.Int64, now: Time)
    requires PaymentValid(p) && 0 < amount <= Available(p)
    ensures Available(p) == p.amount - p.refundedAmount
    ensures ApplyRefund(p, amount, now).refundedAmount == p.refundedAmount + amount <= p.amount
  {
  }

  /** Everything CreateRefund checks before writing, in source order. */
  function ValidateRefund(l: Ledger, paymentId: nat, req: Option<RefundRequest>, readErr: Option<string>): (e: Option<PaymentError>)
    ensures e == Some(EmptyRequest) <==> req.None?
    ensures e == Some(InvalidAmount) <==> req.Some? && req.value.amount <= 0
    ensures req.Some? && req.value.amount > 0 && GetPaymentByID(l, paymentId, readErr).Err? ==>
      e == Some(GetPaymentByID(l, paymentId, readErr).error)
    ensures e.None? <==>
      && req.Some? && req.value.amount > 0
      && GetPaymentByID(l, paymentId, readErr).Ok?
      && GetPaymentByID(l, paymentId, readErr).value.status == PaymentCompleted
      && req.value.amount <= Available(GetPaymentByID(l, paymentId, readErr).value)
    ensures e == Some(PaymentNotComplete) ==>
      GetPaymentByID(l, paymentId, readErr).Ok?
      && GetPaymentByID(l, paymentId, readErr).value.status != PaymentCompleted
  {
    if req.None? then Some(EmptyRequest)
    else if req.value.amount <= 0 then Some(InvalidAmount)
    else
      match GetPaymentByID(l, paymentId, readErr)
      case Err(e) => Some(e)
      case Ok(p) =>
        if p.status != PaymentCompleted then Some(PaymentNotComplete)
        else if req.value.amount > Available(p) then Some(RefundAmountExceed)
        else None
  }

  /** RefundService.CreateRefund. The refund row is written first and the
      payment afterwards; a failure of the second write leaves the first in
      place. */
  function CreateRefund(
    l: Ledger, paymentId: nat, req: Option<RefundRequest>, now: Time,
    faults: RefundFaults): (s: Step<Refund>)
    ensures ValidateRefund(l, paymentId, req, faults.read).Some? ==>
      s == Step(Err(ValidateRefund(l, paymentId, req, faults.read).value), l)
    ensures ValidateRefund(l, paymentId, req, faults.read).None? && faults.refundWrite.Some? ==>
      s == Step(Err(Database(faults.refundWrite.value)), l)
    ensures s.answer.Ok? <==>
      ValidateRefund(l, paymentId, req, faults.read).None?
      && faults.refundWrite.None? && faults.paymentWrite.None?
    // The refund row: the requested amount and reason, Completed, against the payment.
    ensures ValidateRefund(l, paymentId, req, faults.read).None? && faults.refundWrite.None? ==>
      var r := Refund(|l.refunds| + 1, paymentId, req.value.amount, req.value.reason, RefundCompleted);
      && s.after.refunds == l.refunds + [r]
      && (faults.paymentWrite.Some? ==>
            s.answer == Err(Database(faults.paymentWrite.value)) && s.after.payments == l.payments)
      && (faults.paymentWrite.None? ==>
            && s.answer == Ok(r)
            && |s.after.payments| == |l.payments|
            && s.after.payments[paymentId - 1]
               == ApplyRefund(l.payments[paymentId - 1], req.value.amount, now)
            && (forall i :: 0 <= i < |l.payments| && i != paymentId - 1 ==>
                  s.after.payments[i] == l.payments[i]))
  {
    var invalid := ValidateRefund(l, paymentId, req, faults.read);
    if invalid.Some? then Step(Err(invalid.value), l)
    else
      var p := l.payments[paymentId - 1];
      var r := Refund(|l.refunds| + 1, paymentId, req.value.amount, req.value.reason, RefundCompleted);
      if faults.refundWrite.Some? then Step(Err(Database(faults.refundWrite.value)), l)
      else
        var withRefund := Ledger(l.payments, l.refunds + [r]);
        if faults.paymentWrite.Some? then Step(Err(Database(faults.paymentWrite.value)), withRefund)
        else Step(Ok(r), Ledger(l.payments[paymentId - 1 := ApplyRefund(p, req.value.amount, now)], withRefund.refunds))
  }

  /** A refund keeps every payment valid: the refunded amount stays between
      0 and the amount, and Refunded is reached exactly when it reaches the
      amount. */
  lemma CreateRefundPreservesValid(
    l: Ledger, paymentId: nat, req: Option<RefundRequest>, now: Time, faults: RefundFaults)
    requires LedgerValid(l)
    ensures LedgerValid(CreateRefund(l, paymentId, req, now, faults).after)
  {
    var s := CreateRefund(l, paymentId, req, now, faults);
    if ValidateRefund(l, paymentId, req, faults.read).None? && faults.refundWrite.None? && faults.paymentWrite.None? {
      var i := paymentId - 1;
      assert s.after.payments[i].id == l.payments[i].id;
      assert PaymentValid(s.after.payments[i]);
      forall a, b | 0 <= a < b < |s.after.payments|
        ensures s.after.payments[a].transactionId != s.after.payments[b].transactionId
      {
        assert s.after.payments[a].transactionId == l.payments[a].transactionId;
        assert s.after.payments[b].transactionId == l.payments[b].transactionId;
      }
    }
  }

  /** With both writes succeeding, refunded amounts stay equal to the sums
      of the refund rows. */
  lemma CreateRefundPreservesReconciled(
    l: Ledger, paymentId: nat, req: Option<RefundRequest>, now: Time, faults: RefundFaults)
    requires LedgerValid(l) && Reconciled(l) && faults.paymentWrite.None?
    ensures Reconciled(CreateRefund(l, paymentId, req, now, faults).after)
  {
    var s := CreateRefund(l, paymentId, req, now, faults);
    if s.answer.Ok? {
      var r := s.after.refunds[|l.refunds|];
      assert s.after.refunds == l.refunds + [r];
      forall i | 0 <= i < |s.after.payments|
        ensures RefundedSum(s.after.refunds, i + 1) == s.after.payments[i].refundedAmount
      {
        RefundedSumAppend(l.refunds, r, i + 1);
      }
    }
  }

  /** When the payment update fails after the refund row was written, the
      ledger no longer reconciles: the refund row counts money the payment
      does not show as refunded. */
  lemma FailedPaymentWriteBreaksReconciliation(
    l: Ledger, paymentId: nat, req: Option<RefundRequest>, now: Time, faults: RefundFaults)
    requires LedgerValid(l) && Reconciled(l)
    requires ValidateRefund(l, paymentId, req, faults.read).None?
    requires faults.refundWrite.None? && faults.paymentWrite.Some?
    ensures CreateRefund(l, paymentId, req, now, faults).answer.Err?
    ensures !Reconciled(CreateRefund(l, paymentId, req, now, faults).after)
  {
    var s := CreateRefund(l, paymentId, req, now, faults);
    var r := s.after.refunds[|l.refunds|];
    assert s.after.refunds == l.refunds + [r];
    RefundedSumAppend(l.refunds, r, paymentId);
    assert RefundedSum(s.after.refunds, paymentId) != s.after.payments[paymentId - 1].refundedAmount;
  }

  /** A refund of a Completed payment succeeds exactly when it does not
      exceed the remainder; refunding exactly the remainder leaves the
      payment Refunded, anything less leaves it Completed. */
  lemma RefundUpToRemainder(l: Ledger, paymentId: nat, amount: Strings.Int64, reason: string, now: Time)
    requires LedgerValid(l) && 1 <= paymentId <= |l.payments| && amount > 0
    requires l.payments[paymentId - 1].status == PaymentCompleted
    ensures
      var p := l.payments[paymentId - 1];
      var s := CreateRefund(l, paymentId, Some(RefundRequest(amount, reason)), now, NoFaults);
      && (s.answer.Ok? <==> amount <= p.amount - p.refundedAmount)
      && (s.answer.Err? ==> s.answer.error == RefundAmountExceed)
      && (s.answer.Ok? ==>
            (s.after.payments[paymentId - 1].status == PaymentRefunded
             <==> amount == p.amount - p.refundedAmount))
  {
  }
}
