/** The payment service's event consumer: what one booking.created or
    booking.cancelled message does to the ledger, and how the broker list is
    read from its configuration string. The reader loop, JSON decoding and
    logging are left out: a message arrives here already decoded, or as
    `None` when it did not decode. */
module Settlement {
  import opened Wrappers
  import Strings
  import opened Payments

  /** The consumer's view of a booking.created message. */
  datatype CreatedEvent = CreatedEvent(bookingId: Uuid, userId: Uuid, amount: Strings.Int64, paymentMethod: string)

  /** The consumer's view of a booking.cancelled message. */
  datatype CancelledEvent = CancelledEvent(bookingId: Uuid)

  const CancellationReason: string := "отмена бронирования"

  // ---------------------------------------------------------------------
  // booking.created
  // ---------------------------------------------------------------------

  /** The pending-payment request a created event asks for, if any: events
      without a booking or user, or with a non-positive amount, are skipped. */
  function PendingRequestFor(evt: CreatedEvent): (r: Option<CreatePaymentRequest>)
    ensures r.Some? <==> evt.bookingId != NilUuid && evt.userId != NilUuid && evt.amount > 0
    ensures r.Some? ==>
      && r.value.bookingId == evt.bookingId && r.value.userId == evt.userId
      && r.value.amount == evt.amount && r.value.currency == DefaultCurrency
      && r.value.paymentMethod == (if evt.paymentMethod == "" then MethodCard else evt.paymentMethod)
  {
    if evt.bookingId == NilUuid || evt.userId == NilUuid then None
    else if evt.amount <= 0 then None
    else
      var m := if evt.paymentMethod == "" then MethodCard else evt.paymentMethod;
      Some(CreatePaymentRequest(evt.bookingId, evt.userId, evt.amount, DefaultCurrency, m))
  }

  /** One iteration of the booking.created loop. Every failure only moves on
      to the next message, so the result is just the ledger. */
  function HandleCreated(l: Ledger, decoded: Option<CreatedEvent>, txn: string, storeErr: Option<string>): (after: Ledger)
    ensures decoded.None? || PendingRequestFor(decoded.value).None? ==> after == l
    ensures after == l || |after.payments| == |l.payments| + 1
    ensures |after.payments| == |l.payments| + 1 ==>
      var p := after.payments[|l.payments|];
      && after.payments[..|l.payments|] == l.payments && after.refunds == l.refunds
      && p.status == PaymentPending && p.currency == DefaultCurrency
      && p.bookingId == decoded.value.bookingId && p.amount == decoded.value.amount
    ensures LedgerValid(l) ==> LedgerValid(after)
    ensures LedgerValid(l) && Reconciled(l) ==> Reconciled(after)
  {
    if decoded.None? then l
    else
      match PendingRequestFor(decoded.value)
      case None => l
      case Some(req) =>
        var s := CreatePendingPayment(l, Some(req), txn, storeErr);
        assert s.answer.Ok? ==> s.after.payments[..|l.payments|] == l.payments;
        s.after
  }

  /** An event that passes the consumer's checks also passes the service's
      own validation whenever its method is card, cash or empty: such an
      event fails only in the database. */
  lemma ValidCreatedEventReachesDatabase(l: Ledger, evt: CreatedEvent, txn: string)
    requires evt.bookingId != NilUuid && evt.userId != NilUuid && evt.amount > 0
    requires evt.paymentMethod in {"", MethodCard, MethodCash}
    requires !TransactionTaken(l, txn)
    ensures |HandleCreated(l, Some(evt), txn, None).payments| == |l.payments| + 1
  {
  }

  // ---------------------------------------------------------------------
  // booking.cancelled
  // ---------------------------------------------------------------------

  /** PaymentRepository.GetPaymentByBookingID: the first payment (lowest id)
      recorded for the booking. */
  function FindByBooking(l: Ledger, bookingId: Uuid, readErr: Option<string>): (r: Result<Payment, PaymentError>)
    ensures readErr.Some? ==> r == Err(Database(readErr.value))
    ensures readErr.None? ==>
      (r.Err? <==> forall i :: 0 <= i < |l.payments| ==> l.payments[i].bookingId != bookingId)
    ensures r.Err? && readErr.None? ==> r.error == NotFound
    ensures r.Ok? && LedgerValid(l) ==>
      && 1 <= r.value.id <= |l.payments|
      && l.payments[r.value.id - 1] == r.value && r.value.bookingId == bookingId
      && forall i :: 0 <= i < r.value.id - 1 ==> l.payments[i].bookingId != bookingId
  {
    if readErr.Some? then Err(Database(readErr.value))
    else FirstFrom(l, bookingId, 0)
  }

  function FirstFrom(l: Ledger, bookingId: Uuid, k: nat): (r: Result<Payment, PaymentError>)
    requires k <= |l.payments|
    ensures r.Err? <==> forall i :: k <= i < |l.payments| ==> l.payments[i].bookingId != bookingId
    ensures r.Err? ==> r.error == NotFound
    ensures r.Ok? ==> exists i :: (k <= i < |l.payments| && l.payments[i] == r.value
      && r.value.bookingId == bookingId
      && forall j :: k <= j < i ==> l.payments[j].bookingId != bookingId)
    decreases |l.payments| - k
  {
    if k == |l.payments| then Err(NotFound)
    else if l.payments[k].bookingId == bookingId then Ok(l.payments[k])
    else FirstFrom(l, bookingId, k + 1)
  }

  /** The refund a cancellation asks for: the whole remainder of a Completed
      payment, if anything remains. */
  function RefundFor(p: Payment): (r: Option<RefundRequest>)
    ensures r.Some? <==> p.status == PaymentCompleted && Available(p) > 0
    ensures r.Some? ==> r.value.amount == Available(p) && r.value.reason == CancellationReason
    ensures PaymentValid(p) ==>
      (r.Some? <==> p.status == PaymentCompleted && p.refundedAmount < p.amount)
  {
    if p.status != PaymentCompleted then None
    else
      var remaining := Available(p);
      if remaining <= 0 then None
      else Some(RefundRequest(remaining, CancellationReason))
  }

  /** One iteration of the booking.cancelled loop. */
  function HandleCancelled(
    l: Ledger, decoded: Option<CancelledEvent>, now: Time, lookupErr: Option<string>,
    faults: RefundFaults): (after: Ledger)
    ensures decoded.None? || decoded.value.bookingId == NilUuid ==> after == l
    ensures decoded.Some? && FindByBooking(l, decoded.value.bookingId, lookupErr).Err? ==> after == l
    ensures (decoded.Some? && FindByBooking(l, decoded.value.bookingId, lookupErr).Ok?
             && RefundFor(FindByBooking(l, decoded.value.bookingId, lookupErr).value).None?) ==> after == l
    // Otherwise the whole remainder is refunded, with the cancellation
    // reason: the refund row is appended unless the refund service cannot
    // read the payment or write the row, and the payment is marked Refunded
    // unless its own write fails.
    ensures LedgerValid(l) && decoded.Some? && decoded.value.bookingId != NilUuid
            && FindByBooking(l, decoded.value.bookingId, lookupErr).Ok?
            && RefundFor(FindByBooking(l, decoded.value.bookingId, lookupErr).value).Some? ==>
      var p := FindByBooking(l, decoded.value.bookingId, lookupErr).value;
      && (faults.read.Some? || faults.refundWrite.Some? ==> after == l)
      && (faults.read.None? && faults.refundWrite.None? ==>
            after.refunds == l.refunds + [Refund(|l.refunds| + 1, p.id, Available(p), CancellationReason, RefundCompleted)])
      && (faults == NoFaults ==>
            && 1 <= p.id <= |after.payments|
            && after.payments[p.id - 1].status == PaymentRefunded
            && after.payments[p.id - 1].refundedAmount == p.amount
            && after.payments[p.id - 1].refundedAt == Some(now))
    ensures LedgerValid(l) ==> LedgerValid(after)
    ensures LedgerValid(l) && Reconciled(l) && faults.paymentWrite.None? ==> Reconciled(after)
  {
    if decoded.None? || decoded.value.bookingId == NilUuid then l
    else
      match FindByBooking(l, decoded.value.bookingId, lookupErr)
      case Err(_) => l
      case Ok(p) =>
        if RefundFor(p).None? then l else CancelPayment(l, p, now, faults)
  }

  /** The refund of a found payment's remainder, with what it does to the
      ledger. */
  function CancelPayment(l: Ledger, p: Payment, now: Time, faults: RefundFaults): (after: Ledger)
    requires RefundFor(p).Some?
    ensures LedgerValid(l) && 1 <= p.id <= |l.payments| && l.payments[p.id - 1] == p ==>
      && (faults.read.Some? || faults.refundWrite.Some? ==> after == l)
      && (faults.read.None? && faults.refundWrite.None? ==>
            after.refunds == l.refunds + [Refund(|l.refunds| + 1, p.id, Available(p), CancellationReason, RefundCompleted)])
      && (faults == NoFaults ==>
            && 1 <= p.id <= |after.payments|
            && after.payments[p.id - 1].status == PaymentRefunded
            && after.payments[p.id - 1].refundedAmount == p.amount
            && after.payments[p.id - 1].refundedAt == Some(now))
    ensures LedgerValid(l) ==> LedgerValid(after)
    ensures LedgerValid(l) && Reconciled(l) && faults.paymentWrite.None? ==> Reconciled(after)
  {
    RefundKeepsInvariants(l, p.id, RefundFor(p), now, faults);
    CancelRefundEffect(l, p, now, faults);
    CreateRefund(l, p.id, RefundFor(p), now, faults).after
  }

  /** The refund a cancellation asks the refund service for, under every
      combination of faults. */
  lemma CancelRefundEffect(l: Ledger, p: Payment, now: Time, faults: RefundFaults)
    ensures LedgerValid(l) && 1 <= p.id <= |l.payments| && l.payments[p.id - 1] == p && RefundFor(p).Some? ==>
      var s := CreateRefund(l, p.id, RefundFor(p), now, faults);
      && (faults.read.Some? || faults.refundWrite.Some? ==> s.after == l)
      && (faults.read.None? && faults.refundWrite.None? ==>
            s.after.refunds == l.refunds + [Refund(|l.refunds| + 1, p.id, Available(p), CancellationReason, RefundCompleted)])
      && (faults == NoFaults ==>
            && 1 <= p.id <= |s.after.payments|
            && s.after.payments[p.id - 1].status == PaymentRefunded
            && s.after.payments[p.id - 1].refundedAmount == p.amount
            && s.after.payments[p.id - 1].refundedAt == Some(now))
  {
    if LedgerValid(l) && 1 <= p.id <= |l.payments| && l.payments[p.id - 1] == p && RefundFor(p).Some? {
      var req := RefundFor(p).value;
      assert PaymentValid(p);
      if faults.read.Some? {
        assert Payments.GetPaymentByID(l, p.id, faults.read).Err?;
      } else {
        assert Payments.GetPaymentByID(l, p.id, None) == Ok(p);
        assert ValidateRefund(l, p.id, Some(req), None).None?;
        if faults == NoFaults {
          var s := CreateRefund(l, p.id, Some(req), now, faults);
          assert s.after.payments[p.id - 1] == ApplyRefund(p, p.amount - p.refundedAmount, now);
        }
      }
    }
  }

  lemma RefundKeepsInvariants(l: Ledger, paymentId: nat, req: Option<RefundRequest>, now: Time, faults: RefundFaults)
    ensures LedgerValid(l) ==> LedgerValid(CreateRefund(l, paymentId, req, now, faults).after)
    ensures LedgerValid(l) && Reconciled(l) && faults.paymentWrite.None? ==>
      Reconciled(CreateRefund(l, paymentId, req, now, faults).after)
  {
    if LedgerValid(l) {
      CreateRefundPreservesValid(l, paymentId, req, now, faults);
      if Reconciled(l) && faults.paymentWrite.None? {
        CreateRefundPreservesReconciled(l, paymentId, req, now, faults);
      }
    }
  }

  /** A cancellation whose payment is Completed refunds the whole remainder
      in one refund row and leaves the payment Refunded. */
  lemma CancellationRefundsRemainder(l: Ledger, bookingId: Uuid, now: Time)
    requires LedgerValid(l) && bookingId != NilUuid
    requires FindByBooking(l, bookingId, None).Ok?
    requires FindByBooking(l, bookingId, None).value.status == PaymentCompleted
    ensures
      var p := FindByBooking(l, bookingId, None).value;
      var after := HandleCancelled(l, Some(CancelledEvent(bookingId)), now, None, NoFaults);
      && after.refunds == l.refunds + [Refund(|l.refunds| + 1, p.id, p.amount - p.refundedAmount, CancellationReason, RefundCompleted)]
      && after.payments[p.id - 1].status == PaymentRefunded
      && after.payments[p.id - 1].refundedAmount == p.amount
      && after.payments[p.id - 1].refundedAt == Some(now)
  {
    var p := FindByBooking(l, bookingId, None).value;
    assert PaymentValid(p);
    CancelIsRefund(l, bookingId, now);
    RemainderRefund(l, p, now);
  }

  /** The refund of a Completed payment's whole remainder. */
  lemma RemainderRefund(l: Ledger, p: Payment, now: Time)
    requires LedgerValid(l) && 1 <= p.id <= |l.payments| && l.payments[p.id - 1] == p
    requires p.status == PaymentCompleted
    ensures RefundFor(p).Some?
    ensures var after := CreateRefund(l, p.id, RefundFor(p), now, NoFaults).after;
      && after.refunds == l.refunds + [Refund(|l.refunds| + 1, p.id, p.amount - p.refundedAmount, CancellationReason, RefundCompleted)]
      && after.payments[p.id - 1].status == PaymentRefunded
      && after.payments[p.id - 1].refundedAmount == p.amount
      && after.payments[p.id - 1].refundedAt == Some(now)
  {
    assert PaymentValid(p);
    var req := RefundFor(p).value;
    assert Payments.GetPaymentByID(l, p.id, None) == Ok(p);
    assert ValidateRefund(l, p.id, Some(req), None).None?;
    var s := CreateRefund(l, p.id, Some(req), now, NoFaults);
    assert s.after.payments[p.id - 1] == ApplyRefund(p, p.amount - p.refundedAmount, now);
  }

  /** A cancellation whose payment is still Pending changes nothing. */
  lemma CancellationOfPendingPayment(l: Ledger, bookingId: Uuid, now: Time, faults: RefundFaults)
    requires LedgerValid(l)
    requires FindByBooking(l, bookingId, None).Ok?
    requires FindByBooking(l, bookingId, None).value.status == PaymentPending
    ensures HandleCancelled(l, Some(CancelledEvent(bookingId)), now, None, faults) == l
  {
  }

  /** A redelivered cancellation changes nothing: the payment it found is now
      Refunded, and it is still the first one for the booking. */
  lemma CancellationIdempotent(l: Ledger, bookingId: Uuid, now: Time, now2: Time, faults: RefundFaults)
    requires LedgerValid(l)
    ensures
      var once := HandleCancelled(l, Some(CancelledEvent(bookingId)), now, None, NoFaults);
      HandleCancelled(once, Some(CancelledEvent(bookingId)), now2, None, faults) == once
  {
    if bookingId != NilUuid && FindByBooking(l, bookingId, None).Ok?
       && RefundFor(FindByBooking(l, bookingId, None).value).Some? {
      var p := FindByBooking(l, bookingId, None).value;
      var once := CreateRefund(l, p.id, RefundFor(p), now, NoFaults).after;
      CancelIsRefund(l, bookingId, now);
      FullRefundStep(l, p, now);
      FirstStaysFirst(l, once, bookingId, p.id);
      FoundAgain(once, bookingId, p.id);
      NothingLeftToRefund(once, bookingId, now2, faults);
    }
  }

  /** When there is something to refund, the cancellation is exactly that
      refund. */
  lemma CancelIsRefund(l: Ledger, bookingId: Uuid, now: Time)
    requires bookingId != NilUuid && FindByBooking(l, bookingId, None).Ok?
    requires RefundFor(FindByBooking(l, bookingId, None).value).Some?
    ensures var p := FindByBooking(l, bookingId, None).value;
      HandleCancelled(l, Some(CancelledEvent(bookingId)), now, None, NoFaults)
        == CreateRefund(l, p.id, RefundFor(p), now, NoFaults).after
  {
  }

  /** The refund a cancellation makes marks its payment Refunded and leaves
      every payment's booking as it was. */
  lemma FullRefundStep(l: Ledger, p: Payment, now: Time)
    requires LedgerValid(l) && 1 <= p.id <= |l.payments| && l.payments[p.id - 1] == p
    requires RefundFor(p).Some?
    ensures var after := CreateRefund(l, p.id, RefundFor(p), now, NoFaults).after;
      && LedgerValid(after)
      && |after.payments| == |l.payments|
      && (forall i :: 0 <= i < |l.payments| ==> after.payments[i].bookingId == l.payments[i].bookingId)
      && after.payments[p.id - 1].status == PaymentRefunded
  {
    var req := RefundFor(p).value;
    assert PaymentValid(p);
    assert Payments.GetPaymentByID(l, p.id, None) == Ok(p);
    assert ValidateRefund(l, p.id, Some(req), None).None?;
    RefundKeepsInvariants(l, p.id, Some(req), now, NoFaults);
  }

  /** A payment that is the first of its booking stays the first when no
      payment changes booking. */
  lemma FirstStaysFirst(l: Ledger, once: Ledger, bookingId: Uuid, id: nat)
    requires LedgerValid(l) && |once.payments| == |l.payments|
    requires forall i :: 0 <= i < |l.payments| ==> once.payments[i].bookingId == l.payments[i].bookingId
    requires FindByBooking(l, bookingId, None).Ok? && FindByBooking(l, bookingId, None).value.id == id
    ensures 1 <= id <= |once.payments| && once.payments[id - 1].bookingId == bookingId
    ensures forall i :: 0 <= i < id - 1 ==> once.payments[i].bookingId != bookingId
  {
    assert l.payments[id - 1].bookingId == bookingId;
    forall i | 0 <= i < id - 1 ensures once.payments[i].bookingId != bookingId {
      assert l.payments[i].bookingId != bookingId;
    }
  }

  /** After the refund, the first payment of the booking is the same row,
      now Refunded, so a second cancellation asks for nothing. */
  lemma FoundAgain(once: Ledger, bookingId: Uuid, id: nat)
    requires LedgerValid(once) && 1 <= id <= |once.payments|
    requires once.payments[id - 1].bookingId == bookingId
    requires forall i :: 0 <= i < id - 1 ==> once.payments[i].bookingId != bookingId
    requires once.payments[id - 1].status == PaymentRefunded
    ensures FindByBooking(once, bookingId, None).Ok?
    ensures FindByBooking(once, bookingId, None).value == once.payments[id - 1]
    ensures RefundFor(FindByBooking(once, bookingId, None).value).None?
  {
    var found := FindByBooking(once, bookingId, None);
    assert found.Ok?;
    var k := found.value.id - 1;
    assert once.payments[k].bookingId == bookingId;
    assert k == id - 1;
  }

  /** A cancellation whose payment has nothing left to refund is a no-op. */
  lemma NothingLeftToRefund(l: Ledger, bookingId: Uuid, now: Time, faults: RefundFaults)
    requires FindByBooking(l, bookingId, None).Ok?
    requires RefundFor(FindByBooking(l, bookingId, None).value).None?
    ensures HandleCancelled(l, Some(CancelledEvent(bookingId)), now, None, faults) == l
  {
  }

  // ---------------------------------------------------------------------
  // splitBrokers
  // ---------------------------------------------------------------------

  /** The trimmed, non-blank entries, in order. */
  function KeepNonBlank(parts: seq<string>): (out: seq<string>)
    ensures |out| <= |parts|
    ensures forall i :: 0 <= i < |out| ==> out[i] != "" && Strings.IsTrimmed(out[i])
    // Membership both ways: every non-blank entry is kept, trimmed, and
    // nothing else is.
    ensures forall i :: 0 <= i < |parts| && Strings.TrimSpace(parts[i]) != "" ==> Strings.TrimSpace(parts[i]) in out
    ensures forall x :: x in out ==> exists i :: 0 <= i < |parts| && Strings.TrimSpace(parts[i]) == x
  {
    if |parts| == 0 then []
    else
      var t := Strings.TrimSpace(parts[0]);
      var rest := KeepNonBlank(parts[1..]);
      assert forall i :: 1 <= i < |parts| ==> parts[i] == parts[1..][i - 1];
      (if t != "" then [t] else []) + rest
  }

  /** splitBrokers: the comma-separated entries of the setting, trimmed,
      with blank entries dropped. */
  function SplitBrokers(raw: string): (out: seq<string>)
    ensures raw == "" ==> out == []
    ensures forall i :: 0 <= i < |out| ==> out[i] != "" && Strings.IsTrimmed(out[i]) && ',' !in out[i]
    // Every non-blank comma-separated field is a broker, trimmed, and every
    // broker is such a field.
    ensures var fields := Strings.Split(raw, ',');
      && (forall i :: 0 <= i < |fields| && Strings.TrimSpace(fields[i]) != "" ==> Strings.TrimSpace(fields[i]) in out)
      && (forall x :: x in out ==> exists i :: 0 <= i < |fields| && Strings.TrimSpace(fields[i]) == x)
  {
    if raw == "" then []
    else
      var parts := Strings.Split(raw, ',');
      KeepCommaFree(parts, ',');
      KeepNonBlank(parts)
  }

  /** One entry is kept, trimmed, exactly when it is not blank. */
  lemma KeepNonBlankSingle(p: string)
    ensures KeepNonBlank([p]) == if Strings.TrimSpace(p) == "" then [] else [Strings.TrimSpace(p)]
  {
    assert [p][1..] == [];
  }

  /** Entries are kept independently of each other and in their order: the
      kept entries of a concatenation are the concatenation of the kept
      entries. With KeepNonBlankSingle this determines KeepNonBlank on
      every list. */
  lemma {:induction false} KeepNonBlankAppend(a: seq<string>, b: seq<string>)
    ensures KeepNonBlank(a + b) == KeepNonBlank(a) + KeepNonBlank(b)
    decreases |a|
  {
    if |a| > 0 {
      assert (a + b)[0] == a[0];
      assert (a + b)[1..] == a[1..] + b;
      KeepNonBlankAppend(a[1..], b);
    } else {
      assert a + b == b;
    }
  }

  /** The brokers of any comma-separated setting are the kept entries of its
      fields, blank and padded ones included. */
  lemma SplitBrokersEntries(fields: seq<string>)
    requires |fields| >= 1
    requires forall i :: 0 <= i < |fields| ==> ',' !in fields[i]
    requires Strings.Join(fields, ',') != ""
    ensures SplitBrokers(Strings.Join(fields, ',')) == KeepNonBlank(fields)
  {
    Strings.SplitJoin(fields, ',');
  }

  /** Trimming keeps comma-freedom: every kept entry is some field,
      trimmed. */
  lemma KeepCommaFree(parts: seq<string>, sep: char)
    requires forall i :: 0 <= i < |parts| ==> sep !in parts[i]
    ensures forall i :: 0 <= i < |KeepNonBlank(parts)| ==> sep !in KeepNonBlank(parts)[i]
  {
    var out := KeepNonBlank(parts);
    forall i | 0 <= i < |out|
      ensures sep !in out[i]
    {
      assert out[i] in out;
      var j :| 0 <= j < |parts| && Strings.TrimSpace(parts[j]) == out[i];
      TrimKeepsAbsent(parts[j], sep);
    }
  }

  /** Trimming one entry cannot introduce a character. */
  lemma TrimKeepsAbsent(p: string, sep: char)
    requires sep !in p
    ensures sep !in Strings.TrimSpace(p)
  {
    var t := Strings.TrimSpace(p);
    assert t == p[Strings.LeadingSpace(p)..Strings.LeadingSpace(p) + |t|];
  }

  /** Entries that are already trimmed and non-blank come back unchanged. */
  lemma {:induction false} KeepNonBlankClean(parts: seq<string>)
    requires forall i :: 0 <= i < |parts| ==> parts[i] != "" && Strings.IsTrimmed(parts[i])
    ensures KeepNonBlank(parts) == parts
  {
    if |parts| > 0 {
      KeepNonBlankClean(parts[1..]);
      KeepCleanEntry(parts[0], parts[1..]);
      assert [parts[0]] + parts[1..] == parts;
    }
  }

  /** A clean entry in front is kept as it is. */
  lemma KeepCleanEntry(p: string, rest: seq<string>)
    requires p != "" && Strings.IsTrimmed(p)
    ensures KeepNonBlank([p] + rest) == [p] + KeepNonBlank(rest)
  {
    Strings.TrimSpaceTrimmed(p);
    KeepNonBlankSingle(p);
    KeepNonBlankAppend([p], rest);
  }

  /** Joining a broker list with commas and splitting it again gives the list
      back. */
  lemma SplitBrokersJoin(brokers: seq<string>)
    requires |brokers| >= 1
    requires forall i :: 0 <= i < |brokers| ==> brokers[i] != "" && Strings.IsTrimmed(brokers[i]) && ',' !in brokers[i]
    ensures SplitBrokers(Strings.Join(brokers, ',')) == brokers
  {
    Strings.SplitJoin(brokers, ',');
    KeepNonBlankClean(brokers);
  }
}
