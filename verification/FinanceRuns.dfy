/** What every run of the finance operations keeps, and what the reports may rely on. */
module FinanceRuns {
  import opened Common
  import opened FinanceLedger

  /** The signs the code leaves to its callers: payments and refunds are positive, fees
      and awards are not negative. */
  predicate Sensible(e: Event) {
    match e
    case GenerateInvoice(_, _, _, fee, hostelFee, award) =>
      (fee.Some? ==> fee.value >= 0) && hostelFee >= 0 && (award.Some? ==> SensibleScholarship(award.value))
    case RecordManualPayment(_, _, amount, _) => amount > 0
    case RequestRefund(_, amount, _) => amount > 0
    case OfflinePayment(p) => p.amount.Some? && p.amount.value.Cents? ==> p.amount.value.cents > 0
    case _ => true
  }

  // --------------------------------------------------------------- invariant

  /** The status an invoice should show, from what has been paid on it. */
  function DerivedStatus(net: int, paid: int): InvoiceStatus {
    if paid == 0 then Issued else if paid < net then PartiallyPaid else Settled
  }

  ghost predicate InvoiceSound(b: Books, k: nat)
    requires k < |b.invoices|
  {
    && 0 <= b.invoices[k].discount <= b.invoices[k].amount
    && b.invoices[k].status == DerivedStatus(Net(b.invoices[k]), PaidOn(b.payments, k))
  }

  ghost predicate PaymentSound(b: Books, p: nat)
    requires p < |b.payments|
  {
    && b.payments[p].invoice < |b.invoices| && b.payments[p].amount > 0 && b.payments[p].reference != ""
    && (b.payments[p].status == Confirmed <==> b.payments[p].receipt.Some?)
    && (b.payments[p].receipt.Some? ==> b.payments[p].receipt.value <= b.receipts)
    && Claimed(b.refunds, p) <= b.payments[p].amount
  }

  ghost predicate RefundSound(b: Books, r: nat)
    requires r < |b.refunds|
  {
    && b.refunds[r].payment < |b.payments| && b.refunds[r].amount > 0
    && b.payments[b.refunds[r].payment].status == Confirmed
  }

  ghost predicate KeysDistinct(b: Books) {
    && (forall i, j :: 0 <= i < j < |b.payments| ==> b.payments[i].reference != b.payments[j].reference)
    && (forall i, j :: 0 <= i < j < |b.payments| ==>
          b.payments[i].receipt.None? || b.payments[i].receipt != b.payments[j].receipt)
    && (forall i, j :: 0 <= i < j < |b.invoices| ==>
          !(b.invoices[i].student == b.invoices[j].student && b.invoices[i].semester == b.invoices[j].semester))
  }

  ghost predicate Sound(b: Books) {
    && (forall k :: 0 <= k < |b.invoices| ==> InvoiceSound(b, k))
    && (forall p :: 0 <= p < |b.payments| ==> PaymentSound(b, p))
    && (forall r :: 0 <= r < |b.refunds| ==> RefundSound(b, r))
    && KeysDistinct(b)
  }

  // ------------------------------------------------------------------- sums

  lemma {:induction false} PaidUpdate(payments: seq<Payment>, p: nat, x: Payment, k: nat)
    requires p < |payments|
    ensures PaidOn(payments[p := x], k) ==
            PaidOn(payments, k) - (if payments[p].invoice == k && payments[p].status == Confirmed then payments[p].amount else 0)
            + (if x.invoice == k && x.status == Confirmed then x.amount else 0)
  {
    var last := |payments| - 1;
    if p == last {
      assert payments[p := x][..last] == payments[..last];
    } else {
      assert payments[p := x][..last] == payments[..last][p := x];
      PaidUpdate(payments[..last], p, x, k);
    }
  }

  lemma PaidAppend(payments: seq<Payment>, x: Payment, k: nat)
    requires x.status != Confirmed
    ensures PaidOn(payments + [x], k) == PaidOn(payments, k)
  {
  }

  lemma {:induction false} PaidNonNegative(payments: seq<Payment>, k: nat)
    requires forall p :: 0 <= p < |payments| ==> payments[p].amount > 0
    ensures PaidOn(payments, k) >= 0
    ensures PaidOn(payments, k) == 0 <==> forall p :: 0 <= p < |payments| ==> !(payments[p].invoice == k && payments[p].status == Confirmed)
  {
    if payments != [] {
      var last := |payments| - 1;
      PaidNonNegative(payments[..last], k);
      assert forall p :: 0 <= p < last ==> payments[..last][p] == payments[p];
      if PaidOn(payments, k) == 0 {
        forall p | 0 <= p < |payments|
          ensures !(payments[p].invoice == k && payments[p].status == Confirmed)
        {
          assert p < last ==> payments[..last][p] == payments[p];
        }
      }
    }
  }

  lemma {:induction false} ClaimedUpdate(refunds: seq<Refund>, r: nat, x: Refund, p: nat)
    requires r < |refunds|
    ensures Claimed(refunds[r := x], p) ==
            Claimed(refunds, p) - (if refunds[r].payment == p && refunds[r].status != Rejected then refunds[r].amount else 0)
            + (if x.payment == p && x.status != Rejected then x.amount else 0)
  {
    var last := |refunds| - 1;
    if r == last {
      assert refunds[r := x][..last] == refunds[..last];
    } else {
      assert refunds[r := x][..last] == refunds[..last][r := x];
      ClaimedUpdate(refunds[..last], r, x, p);
    }
  }

  lemma ClaimedAppend(refunds: seq<Refund>, x: Refund, p: nat)
    ensures Claimed(refunds + [x], p) == Claimed(refunds, p) + if x.payment == p && x.status != Rejected then x.amount else 0
  {
  }

  lemma {:induction false} NothingClaimed(refunds: seq<Refund>, p: nat)
    requires forall r :: 0 <= r < |refunds| ==> refunds[r].payment != p
    ensures Claimed(refunds, p) == 0
  {
    if refunds != [] {
      NothingClaimed(refunds[..|refunds| - 1], p);
    }
  }

  // ------------------------------------------------- each operation keeps it

  lemma ConfirmingKeepsSound(b: Books, p: nat)
    requires Sound(b) && p < |b.payments| && b.payments[p].status == Pending
    ensures Sound(Confirming(b, p))
  {
    var after := Confirming(b, p);
    var paid := b.payments[p];
    assert PaymentSound(b, p);
    forall k | 0 <= k < |after.invoices|
      ensures InvoiceSound(after, k)
    {
      assert InvoiceSound(b, k);
      PaidUpdate(b.payments, p, after.payments[p], k);
      PaidNonNegative(b.payments, k) by {
        forall q | 0 <= q < |b.payments| ensures b.payments[q].amount > 0 { assert PaymentSound(b, q); }
      }
    }
    forall q | 0 <= q < |after.payments|
      ensures PaymentSound(after, q)
    {
      assert PaymentSound(b, q);
    }
    forall r | 0 <= r < |after.refunds|
      ensures RefundSound(after, r)
    {
      assert RefundSound(b, r);
    }
    forall i, j | 0 <= i < j < |after.payments|
      ensures after.payments[i].receipt.None? || after.payments[i].receipt != after.payments[j].receipt
    {
      assert PaymentSound(b, i) && PaymentSound(b, j);
    }
  }

  lemma NewPaymentKeepsSound(b: Books, x: Payment)
    requires Sound(b) && x.invoice < |b.invoices| && x.amount > 0 && x.status == Pending && x.receipt == None
    requires x.reference != "" && ReferenceIndex(b.payments, x.reference) == |b.payments|
    ensures Sound(b.(payments := b.payments + [x]))
  {
    var after := b.(payments := b.payments + [x]);
    forall k | 0 <= k < |after.invoices|
      ensures InvoiceSound(after, k)
    {
      assert InvoiceSound(b, k);
      PaidAppend(b.payments, x, k);
    }
    forall r | 0 <= r < |after.refunds|
      ensures RefundSound(after, r)
    {
      assert RefundSound(b, r);
    }
    forall q | 0 <= q < |after.payments|
      ensures PaymentSound(after, q)
    {
      if q < |b.payments| {
        assert PaymentSound(b, q);
      } else {
        forall r | 0 <= r < |b.refunds|
          ensures b.refunds[r].payment != q
        {
          assert RefundSound(b, r);
        }
        NothingClaimed(b.refunds, q);
      }
    }
  }

  lemma RecordingKeepsSound(b: Books, invoice: nat, means: Method, amount: int, reference: string)
    requires Sound(b) && RecordVerdict(b, invoice, means, reference).Created? && amount > 0
    ensures Sound(Recording(b, invoice, means, amount, reference))
  {
    var x := Payment(invoice, means, amount, reference, Pending, None);
    NewPaymentKeepsSound(b, x);
    if means == Cash {
      ConfirmingKeepsSound(b.(payments := b.payments + [x]), |b.payments|);
    }
  }

  lemma FailingKeepsSound(b: Books, p: nat, status: PaymentStatus)
    requires Sound(b) && p < |b.payments| && b.payments[p].status == Pending && status in {Failed, Cancelled}
    ensures Sound(b.(payments := b.payments[p := b.payments[p].(status := status)]))
  {
    var after := b.(payments := b.payments[p := b.payments[p].(status := status)]);
    forall k | 0 <= k < |after.invoices|
      ensures InvoiceSound(after, k)
    {
      assert InvoiceSound(b, k);
      PaidUpdate(b.payments, p, after.payments[p], k);
    }
    forall q | 0 <= q < |after.payments|
      ensures PaymentSound(after, q)
    {
      assert PaymentSound(b, q);
    }
    forall r | 0 <= r < |after.refunds|
      ensures RefundSound(after, r)
    {
      assert RefundSound(b, r);
    }
  }

  lemma NewInvoiceKeepsSound(b: Books, x: Invoice)
    requires Sound(b) && 0 <= x.discount <= x.amount && x.status == Issued && !Invoiced(b.invoices, x.student, x.semester)
    ensures Sound(b.(invoices := b.invoices + [x]))
  {
    var after := b.(invoices := b.invoices + [x]);
    forall q | 0 <= q < |after.payments|
      ensures PaymentSound(after, q) && after.payments[q].amount > 0 && after.payments[q].invoice != |b.invoices|
    {
      assert PaymentSound(b, q);
    }
    forall k | 0 <= k < |after.invoices|
      ensures InvoiceSound(after, k)
    {
      if k < |b.invoices| {
        assert InvoiceSound(b, k);
      } else {
        PaidNonNegative(b.payments, k);
      }
    }
    forall r | 0 <= r < |after.refunds|
      ensures RefundSound(after, r)
    {
      assert RefundSound(b, r);
    }
  }

  lemma RefundsKeepSound(b: Books, refunds: seq<Refund>)
    requires Sound(b)
    requires forall r :: 0 <= r < |refunds| ==> RefundSound(b.(refunds := refunds), r)
    requires forall p :: 0 <= p < |b.payments| ==> PaymentSound(b.(refunds := refunds), p)
    ensures Sound(b.(refunds := refunds))
  {
    var after := b.(refunds := refunds);
    forall k | 0 <= k < |after.invoices|
      ensures InvoiceSound(after, k)
    {
      assert InvoiceSound(b, k);
    }
  }

  lemma RequestKeepsSound(b: Books, x: Refund)
    requires Sound(b) && x.payment < |b.payments| && b.payments[x.payment].status == Confirmed
    requires 0 < x.amount <= b.payments[x.payment].amount - Claimed(b.refunds, x.payment)
    ensures Sound(b.(refunds := b.refunds + [x]))
  {
    var after := b.(refunds := b.refunds + [x]);
    forall r | 0 <= r < |after.refunds|
      ensures RefundSound(after, r)
    {
      assert r < |b.refunds| ==> RefundSound(b, r);
    }
    forall p | 0 <= p < |b.payments|
      ensures PaymentSound(after, p)
    {
      assert PaymentSound(b, p);
      ClaimedAppend(b.refunds, x, p);
    }
    RefundsKeepSound(b, after.refunds);
  }

  lemma DecisionKeepsSound(b: Books, k: nat, status: RefundStatus)
    requires Sound(b) && k < |b.refunds| && b.refunds[k].status != Rejected
    ensures Sound(b.(refunds := b.refunds[k := b.refunds[k].(status := status)]))
  {
    var after := b.(refunds := b.refunds[k := b.refunds[k].(status := status)]);
    forall r | 0 <= r < |after.refunds|
      ensures RefundSound(after, r)
    {
      assert RefundSound(b, r);
    }
    assert RefundSound(b, k);
    forall p | 0 <= p < |b.payments|
      ensures PaymentSound(after, p)
    {
      assert PaymentSound(b, p);
      ClaimedUpdate(b.refunds, k, after.refunds[k], p);
    }
    RefundsKeepSound(b, after.refunds);
  }

  lemma StepKeepsSound(b: Books, e: Event)
    requires Sound(b) && Sensible(e)
    ensures Sound(Step(b, e))
  {
    if Verdict(b, e).Created? || Verdict(b, e).Done? {
      hide Sound, Confirming, Recording, RecordVerdict;
      match e
      case GenerateInvoice(_, _, _, fee, _, award) =>
        if award.Some? {
          DiscountBounded(award.value, fee.value);
        }
        NewInvoiceKeepsSound(b, NewInvoice(e));
      case RecordManualPayment(k, means, amount, reference) => RecordingKeepsSound(b, k, means, amount, reference);
      case ConfirmManualPayment(p) => ConfirmingKeepsSound(b, p);
      case RejectManualPayment(p, _) => FailingKeepsSound(b, p, Failed);
      case InitiateMobilePayment(k, asked, reference) =>
        NewPaymentKeepsSound(b, Payment(k, MobileMoney, asked.GetOr(Balance(b, k)), reference, Pending, None));
      case PollMobilePayment(p, state) =>
        if state == ProviderConfirmed {
          ConfirmingKeepsSound(b, p);
        } else {
          FailingKeepsSound(b, p, if state == ProviderFailed then Failed else Cancelled);
        }
      case PaymentWebhook(_, _, reference) => ConfirmingKeepsSound(b, ReferenceIndex(b.payments, reference));
      case RequestRefund(p, amount, _) => RequestKeepsSound(b, Refund(p, amount, Requested));
      case DecideRefund(r, approve, _) => DecisionKeepsSound(b, r, if approve then Approved else Rejected);
      case MarkRefundPaid(r) => DecisionKeepsSound(b, r, PaidOut);
      case OfflinePayment(p) =>
        RecordingKeepsSound(b, p.invoice.value, p.means.value, p.amount.value.cents, p.reference.value);
    }
  }

  lemma {:induction false} RunKeepsSound(b: Books, events: seq<Event>)
    requires Sound(b) && forall e :: e in events ==> Sensible(e)
    ensures Sound(Run(b, events))
    decreases events
  {
    if events != [] {
      StepKeepsSound(b, events[0]);
      RunKeepsSound(Step(b, events[0]), events[1..]);
    }
  }
}
