/** The ledger as the office uses it: what each operation does to balances, totals, claims
    and receipts, and that each keeps the books sound. */
module FinanceService {
  import opened Common
  import opened FinanceLedger
  import opened FinanceRuns
  import opened FinanceReports

  // -------------------------------------------------------- what can be said

  /** The balance of invoice `k` falls by `amount`, and no other balance moves. */
  ghost predicate BalancesShift(b: Books, after: Books, k: nat, amount: int) {
    && |after.invoices| == |b.invoices|
    && forall j :: 0 <= j < |b.invoices| ==>
         && after.invoices[j] == b.invoices[j].(status := after.invoices[j].status)
         && Balance(after, j) == Balance(b, j) - if j == k then amount else 0
  }

  /** Payment `p` is confirmed under the next receipt, once, and counts for its invoice. */
  ghost predicate Confirms(b: Books, after: Books, p: nat) {
    && p < |b.payments| && after.receipts == b.receipts + 1 && after.refunds == b.refunds
    && after.payments == b.payments[p := b.payments[p].(status := Confirmed, receipt := Some(after.receipts))]
    && BalancesShift(b, after, b.payments[p].invoice, b.payments[p].amount)
    && TotalConfirmed(after.payments) == TotalConfirmed(b.payments) + b.payments[p].amount
  }

  /** Payment `p` is closed with the given status, and no balance moves. */
  ghost predicate Closes(b: Books, after: Books, p: nat, status: PaymentStatus) {
    && p < |b.payments| && after == b.(payments := b.payments[p := b.payments[p].(status := status)])
    && BalancesShift(b, after, b.payments[p].invoice, 0)
    && TotalConfirmed(after.payments) == TotalConfirmed(b.payments)
  }

  /** What is claimed of payment `p` rises by `amount`, and no other claim moves. */
  ghost predicate ClaimsShift(refunds: seq<Refund>, after: seq<Refund>, p: nat, amount: int) {
    forall q :: Claimed(after, q) == Claimed(refunds, q) + if q == p then amount else 0
  }

  predicate Unused(payments: seq<Payment>, reference: string) {
    forall q :: 0 <= q < |payments| ==> payments[q].reference != reference
  }

  predicate PendingUnder(payments: seq<Payment>, p: nat, reference: string) {
    p < |payments| && payments[p].reference == reference && payments[p].status == Pending
  }

  predicate RecordedAs(x: Payment, invoice: nat, means: Method, amount: int, reference: string) {
    x.invoice == invoice && x.means == means && x.amount == amount && x.reference == reference
  }

  /** A new payment: confirmed under its receipt, or pending without one. */
  predicate Opened(x: Payment, receipt: Option<nat>) {
    x.receipt == receipt && x.status == if receipt.Some? then Confirmed else Pending
  }

  predicate Due(b: Books, k: nat) { k < |b.invoices| && Balance(b, k) > 0 }

  predicate SensibleAward(fee: Option<int>, award: Option<Scholarship>) {
    fee.Some? && fee.value >= 0 && (award.Some? ==> SensibleScholarship(award.value))
  }

  /** What an award takes off a fee. */
  predicate Discounted(discount: int, fee: int, award: Option<Scholarship>) {
    if award.None? || !award.value.isActive then discount == 0
    else
      match award.value.coverage
      case FixedAmount(cents) => discount == (if cents.None? then Min(0, fee) else Min(cents.value, fee))
      case Percentage(p) =>
        0 <= p <= 10000 && fee >= 0 ==>
          && -5000 <= 10000 * discount - fee * p <= 5000
          && (10000 * discount - fee * p in {-5000, 5000} ==> discount % 2 == 0)
  }

  predicate Billed(invoices: seq<Invoice>, student: int, semester: int) {
    exists i :: 0 <= i < |invoices| && invoices[i].student == student && invoices[i].semester == semester
  }

  /** A payload the handler looks up: every field present, manual, and a number. */
  predicate WellFormed(p: Payload) {
    && p.invoice.Some? && p.means.Some? && p.amount.Some? && p.reference.Some? && p.reference.value != ""
    && p.means.value in {Cash, Cheque, BankSlip} && p.amount.value.Cents?
  }

  predicate Accepted(o: Outcome) { o.Created? || o.Found? }

  predicate Agrees(x: Payment, p: Payload)
    requires WellFormed(p)
  {
    x.reference == p.reference.value && x.amount == p.amount.value.cents && x.means == p.means.value
  }

  predicate Contradicts(x: Payment, p: Payload)
    requires WellFormed(p)
  {
    x.reference == p.reference.value && (x.amount != p.amount.value.cents || x.means != p.means.value)
  }

  // ----------------------------------------------------------------- payments

  lemma {:induction false} ConfirmedUpdate(payments: seq<Payment>, p: nat, x: Payment)
    requires p < |payments|
    ensures TotalConfirmed(payments[p := x]) ==
            TotalConfirmed(payments) - (if payments[p].status == Confirmed then payments[p].amount else 0)
            + (if x.status == Confirmed then x.amount else 0)
  {
    var last := |payments| - 1;
    if p == last {
      assert payments[p := x][..last] == payments[..last];
    } else {
      assert payments[p := x][..last] == payments[..last][p := x];
      ConfirmedUpdate(payments[..last], p, x);
    }
  }

  lemma ConfirmingEffect(b: Books, p: nat)
    requires p < |b.payments| && b.payments[p].status == Pending
    ensures Confirms(b, Confirming(b, p), p)
    ensures Sound(b) ==> Sound(Confirming(b, p)) && forall q :: 0 <= q < |b.payments| ==> b.payments[q].receipt != Some(b.receipts + 1)
  {
    var after := Confirming(b, p);
    ConfirmedUpdate(b.payments, p, after.payments[p]);
    forall j | 0 <= j < |b.invoices|
      ensures Balance(after, j) == Balance(b, j) - if j == b.payments[p].invoice then b.payments[p].amount else 0
    {
      PaidUpdate(b.payments, p, after.payments[p], j);
    }
    if Sound(b) {
      ConfirmingKeepsSound(b, p);
      forall q | 0 <= q < |b.payments|
        ensures b.payments[q].receipt != Some(b.receipts + 1)
      {
        assert PaymentSound(b, q);
      }
    }
  }

  lemma ClosingEffect(b: Books, p: nat, status: PaymentStatus)
    requires status != Confirmed
    ensures p < |b.payments| && b.payments[p].status == Pending ==>
              Closes(b, b.(payments := b.payments[p := b.payments[p].(status := status)]), p, status)
  {
    if p < |b.payments| && b.payments[p].status == Pending {
      var after := b.(payments := b.payments[p := b.payments[p].(status := status)]);
      ConfirmedUpdate(b.payments, p, after.payments[p]);
      forall j | 0 <= j < |b.invoices|
        ensures Balance(after, j) == Balance(b, j)
      {
        PaidUpdate(b.payments, p, after.payments[p], j);
      }
    }
  }

  /** An unconfirmed payment moves nothing. */
  lemma AddingEffect(b: Books, x: Payment)
    requires x.status != Confirmed
    ensures var after := b.(payments := b.payments + [x]);
            BalancesShift(b, after, x.invoice, 0) && TotalConfirmed(after.payments) == TotalConfirmed(b.payments)
  {
    var after := b.(payments := b.payments + [x]);
    assert after.payments[..|b.payments|] == b.payments;
    forall j | 0 <= j < |b.invoices|
      ensures Balance(after, j) == Balance(b, j)
    {
      PaidAppend(b.payments, x, j);
    }
  }

  lemma RecordingEffect(b: Books, invoice: nat, means: Method, amount: int, reference: string)
    ensures var after, cash := Recording(b, invoice, means, amount, reference), if means == Cash then amount else 0;
            && |after.payments| == |b.payments| + 1 && after.payments[..|b.payments|] == b.payments
            && RecordedAs(after.payments[|b.payments|], invoice, means, amount, reference)
            && Opened(after.payments[|b.payments|], if means == Cash then Some(b.receipts + 1) else None)
            && after.refunds == b.refunds && after.receipts == b.receipts + (if means == Cash then 1 else 0)
            && BalancesShift(b, after, invoice, cash) && TotalConfirmed(after.payments) == TotalConfirmed(b.payments) + cash
    ensures Sound(b) && amount > 0 ==> Sound(Step(b, RecordManualPayment(invoice, means, amount, reference)))
  {
    var x := Payment(invoice, means, amount, reference, Pending, None);
    AddingEffect(b, x);
    if means == Cash {
      ConfirmingEffect(b.(payments := b.payments + [x]), |b.payments|);
    }
    if Sound(b) && amount > 0 {
      StepKeepsSound(b, RecordManualPayment(invoice, means, amount, reference));
    }
  }

  lemma WebhookEffect(b: Books, genuine: bool, state: ProviderState, reference: string)
    requires Sound(b)
    ensures Sound(Step(b, PaymentWebhook(genuine, state, reference)))
    ensures forall p :: PendingUnder(b.payments, p, reference) ==> p == ReferenceIndex(b.payments, reference)
    ensures (exists p :: PendingUnder(b.payments, p, reference))
            <==> PendingUnder(b.payments, ReferenceIndex(b.payments, reference), reference)
  {
    StepKeepsSound(b, PaymentWebhook(genuine, state, reference));
  }

  // ------------------------------------------------------------------ invoices

  lemma {:induction false} OutstandingBefore(b: Books, x: Invoice, scope: Scope, n: nat)
    requires n <= |b.invoices|
    ensures Outstanding(b.(invoices := b.invoices + [x]), scope, n) == Outstanding(b, scope, n)
  {
    if n > 0 {
      OutstandingBefore(b, x, scope, n - 1);
    }
  }

  lemma UnpaidYet(b: Books)
    requires Sound(b)
    ensures PaidOn(b.payments, |b.invoices|) == 0
  {
    forall p | 0 <= p < |b.payments|
      ensures b.payments[p].amount > 0 && b.payments[p].invoice != |b.invoices|
    {
      assert PaymentSound(b, p);
    }
    PaidNonNegative(b.payments, |b.invoices|);
  }

  lemma AwardTaken(fee: int, award: Option<Scholarship>)
    ensures Discounted(if award.Some? && award.value.isActive then DiscountFor(award.value, fee) else 0, fee, award)
  {
    if award.Some? && award.value.isActive && SensibleScholarship(award.value) && fee >= 0 {
      DiscountBounded(award.value, fee);
    }
  }

  lemma InvoicingEffect(b: Books, e: Event)
    requires Sound(b) && e.GenerateInvoice?
    ensures Sensible(e) ==> Sound(Step(b, e)) && (Verdict(b, e).Created? <==> !Billed(b.invoices, e.student, e.semester) && e.fee.Some?)
    ensures Invoiced(b.invoices, e.student, e.semester) <==> Billed(b.invoices, e.student, e.semester)
    ensures Verdict(b, e).Created? ==>
              var after := Step(b, e);
              && Discounted(after.invoices[|b.invoices|].discount, e.fee.value, e.award)
              && Balance(after, |b.invoices|) == Net(after.invoices[|b.invoices|])
              && (SensibleAward(e.fee, e.award) ==> e.hostelFee <= Balance(after, |b.invoices|) <= e.fee.value + e.hostelFee)
              && (e.award.None? ==> Balance(after, |b.invoices|) == e.fee.value + e.hostelFee)
              && forall s :: FeeBalance(after, s) == FeeBalance(b, s) + if s == e.student then Balance(after, |b.invoices|) else 0
  {
    if Sensible(e) {
      StepKeepsSound(b, e);
    }
    if e.fee.Some? && e.fee.value >= 0 && e.award.Some? && SensibleScholarship(e.award.value) {
      DiscountBounded(e.award.value, e.fee.value);
    }
    if Verdict(b, e).Created? {
      var x := NewInvoice(e);
      UnpaidYet(b);
      AwardTaken(e.fee.value, e.award);
      forall s
        ensures FeeBalance(b.(invoices := b.invoices + [x]), s) ==
                FeeBalance(b, s) + if s == e.student then Balance(b.(invoices := b.invoices + [x]), |b.invoices|) else 0
      {
        OutstandingBefore(b, x, OfStudent(s), |b.invoices|);
      }
    }
  }

  // ------------------------------------------------------------------- refunds

  lemma {:induction false} PaidOutUpdate(refunds: seq<Refund>, k: nat, x: Refund)
    requires k < |refunds|
    ensures TotalPaidOut(refunds[k := x]) ==
            TotalPaidOut(refunds) - (if refunds[k].status == PaidOut then refunds[k].amount else 0)
            + (if x.status == PaidOut then x.amount else 0)
  {
    var last := |refunds| - 1;
    if k == last {
      assert refunds[k := x][..last] == refunds[..last];
    } else {
      assert refunds[k := x][..last] == refunds[..last][k := x];
      PaidOutUpdate(refunds[..last], k, x);
    }
  }

  lemma RequestEffect(b: Books, p: nat, amount: int, reasonGiven: bool)
    requires Sound(b)
    ensures amount > 0 ==> Sound(Step(b, RequestRefund(p, amount, reasonGiven)))
    ensures var refunds := b.refunds + [Refund(p, amount, Requested)];
            ClaimsShift(b.refunds, refunds, p, amount) && TotalPaidOut(refunds) == TotalPaidOut(b.refunds)
  {
    if amount > 0 {
      StepKeepsSound(b, RequestRefund(p, amount, reasonGiven));
    }
    var x := Refund(p, amount, Requested);
    assert (b.refunds + [x])[..|b.refunds|] == b.refunds;
    forall q
      ensures Claimed(b.refunds + [x], q) == Claimed(b.refunds, q) + if q == p then amount else 0
    {
      ClaimedAppend(b.refunds, x, q);
    }
  }

  /** What giving one refund another status does. */
  lemma RefundRestatused(refunds: seq<Refund>, k: nat, status: RefundStatus)
    requires k < |refunds| && refunds[k].status in {Requested, Approved}
    ensures var refund, after := refunds[k], refunds[k := refunds[k].(status := status)];
            && ClaimsShift(refunds, after, refund.payment, if status == Rejected then -refund.amount else 0)
            && TotalPaidOut(after) == TotalPaidOut(refunds) + if status == PaidOut then refund.amount else 0
  {
    var refund, after := refunds[k], refunds[k := refunds[k].(status := status)];
    PaidOutUpdate(refunds, k, after[k]);
    forall q
      ensures Claimed(after, q) == Claimed(refunds, q) + if q == refund.payment && status == Rejected then -refund.amount else 0
    {
      ClaimedUpdate(refunds, k, after[k], q);
    }
  }

  lemma PaidOutBounded(b: Books)
    requires Sound(b)
    ensures TotalPaidOut(b.refunds) <= TotalConfirmed(b.payments)
  {
    forall r | 0 <= r < |b.refunds|
      ensures b.refunds[r].payment < |b.payments|
    {
      assert RefundSound(b, r);
    }
    PaidOutGrouped(b.refunds, |b.payments|);
    PaidOutWithinConfirmed(b, |b.payments|);
    assert b.payments[..|b.payments|] == b.payments;
  }

  // ---------------------------------------------------------- offline payments

  /** What the handler answers. */
  lemma OfflineAnswered(b: Books, payload: Payload)
    ensures var o := OfflineVerdict(b, payload);
            && (o.Found? || o.Conflict? <==> WellFormed(payload) && !Unused(b.payments, payload.reference.value))
            && (o.Created? <==>
                  WellFormed(payload) && Unused(b.payments, payload.reference.value) && payload.invoice.value < |b.invoices|)
            && (o.Found? ==> o.key < |b.payments| && Agrees(b.payments[o.key], payload))
            && (o.Created? ==> o.key == |b.payments|)
            && (o.Conflict? ==> exists q :: 0 <= q < |b.payments| && Contradicts(b.payments[q], payload))
  {
  }

  lemma OfflineCreated(b: Books, payload: Payload)
    requires OfflineVerdict(b, payload).Created?
    ensures var after := Step(b, OfflinePayment(payload));
            && WellFormed(payload) && |after.payments| == |b.payments| + 1 && after.payments[..|b.payments|] == b.payments
            && after.payments[|b.payments|].invoice == payload.invoice.value && Agrees(after.payments[|b.payments|], payload)
            && BalancesShift(b, after, payload.invoice.value, if payload.means.value == Cash then payload.amount.value.cents else 0)
  {
    OfflineAnswered(b, payload);
    assert Step(b, OfflinePayment(payload)) ==
           Recording(b, payload.invoice.value, payload.means.value, payload.amount.value.cents, payload.reference.value);
    hide Recording, BalancesShift, Verdict, Step, Effect;
    RecordingEffect(b, payload.invoice.value, payload.means.value, payload.amount.value.cents, payload.reference.value);
  }

  /** An accepted payload has its reference to itself. */
  lemma OfflineAccepted(b: Books, payload: Payload)
    requires Sound(b) && Accepted(OfflineVerdict(b, payload))
    ensures var o, after := OfflineVerdict(b, payload), Step(b, OfflinePayment(payload));
            && WellFormed(payload) && o.key < |after.payments| && Agrees(after.payments[o.key], payload)
            && forall q :: 0 <= q < |after.payments| && after.payments[q].reference == payload.reference.value ==> q == o.key
  {
    OfflineAnswered(b, payload);
    var o, after := OfflineVerdict(b, payload), Step(b, OfflinePayment(payload));
    if o.Created? {
      OfflineCreated(b, payload);
      hide Verdict, Step, Effect, OfflineVerdict, Sound;
      forall q | 0 <= q < |b.payments|
        ensures after.payments[q].reference != payload.reference.value
      {
        assert after.payments[q] == after.payments[..|b.payments|][q];
      }
    }
  }

  class Ledger {
    var invoices: seq<Invoice>
    var payments: seq<Payment>
    var refunds: seq<Refund>
    var receipts: nat

    function Rows(): Books
      reads this
    {
      Books(invoices, payments, refunds, receipts)
    }

    ghost predicate Valid()
      reads this
    {
      Sound(Rows())
    }

    constructor ()
      ensures Valid() && Rows() == EmptyBooks
    {
      invoices, payments, refunds, receipts := [], [], [], 0;
    }

    /** An invoice is issued exactly when the student has none for the semester and a fee is
        set up. It owes between the hostel fee and the full charge, all of it is added to
        what that student owes, and nobody else's balance moves. */
    method CreateInvoice(student: int, semester: int, year: int, fee: Option<int>, hostelFee: int, award: Option<Scholarship>)
      returns (r: Outcome)
      requires Valid()
      modifies this
      ensures var e := GenerateInvoice(student, semester, year, fee, hostelFee, award);
              Sensible(e) ==> Valid() && (r.Created? <==> !Billed(old(invoices), student, semester) && fee.Some?)
      ensures r == DuplicateInvoice <==> Billed(old(invoices), student, semester)
      ensures r == NoFeeStructure <==> !Billed(old(invoices), student, semester) && fee.None?
      ensures r.Created? ==> fee.Some? && r.key == |old(invoices)| && |invoices| == r.key + 1 && invoices[..r.key] == old(invoices)
      ensures r.Created? ==> payments == old(payments) && refunds == old(refunds) && receipts == old(receipts)
      ensures r.Created? ==>
                var x := invoices[r.key];
                && x.student == student && x.semester == semester && x.year == year && x.status == Issued
                && x.amount == fee.value + hostelFee && Discounted(x.discount, fee.value, award)
                && Balance(Rows(), r.key) == x.amount - x.discount
      ensures r.Created? && SensibleAward(fee, award) ==> hostelFee <= Balance(Rows(), r.key) <= fee.value + hostelFee
      ensures r.Created? && award.None? ==> Balance(Rows(), r.key) == fee.value + hostelFee
      ensures r.Created? ==> FeeBalance(Rows(), student) == old(FeeBalance(Rows(), student)) + Balance(Rows(), r.key)
      ensures r.Created? ==> forall other :: other != student ==> FeeBalance(Rows(), other) == old(FeeBalance(Rows(), other))
      ensures !r.Created? ==> Rows() == old(Rows())
      ensures r == Verdict(old(Rows()), GenerateInvoice(student, semester, year, fee, hostelFee, award))
      ensures Rows() == Step(old(Rows()), GenerateInvoice(student, semester, year, fee, hostelFee, award))
    {
      InvoicingEffect(Rows(), GenerateInvoice(student, semester, year, fee, hostelFee, award));
      if Invoiced(invoices, student, semester) {
        return DuplicateInvoice;
      }
      if fee.None? {
        return NoFeeStructure;
      }
      var discount := 0;
      if award.Some? && award.value.isActive {
        discount := DiscountFor(award.value, fee.value);
      }
      var amount := fee.value + hostelFee;
      if discount > amount {
        return InvalidInvoice;
      }
      r := Created(|invoices|);
      invoices := invoices + [Invoice(student, semester, year, amount, discount, Issued)];
    }

    /** An open invoice gets the status its payments say, with one exception: one that owes
        nothing and was never paid would be shown as settled, not as issued. Nothing else
        changes. */
    method RefreshInvoiceStatus(k: nat)
      requires k < |invoices|
      modifies this`invoices
      ensures |invoices| == |old(invoices)| && invoices[k] == old(invoices)[k].(status := invoices[k].status)
      ensures forall j :: 0 <= j < |invoices| && j != k ==> invoices[j] == old(invoices)[j]
      ensures old(invoices)[k].status in {CancelledInvoice, WrittenOff} ==> invoices[k] == old(invoices)[k]
      ensures old(invoices)[k].status !in {CancelledInvoice, WrittenOff} && PaidOn(payments, k) >= 0 ==>
                (invoices[k].status == DerivedStatus(Net(invoices[k]), PaidOn(payments, k))
                 <==> !(PaidOn(payments, k) == 0 && Net(invoices[k]) <= 0))
      ensures invoices == old(invoices)[k := Refreshed(old(invoices)[k], Net(old(invoices)[k]) - PaidOn(payments, k))]
    {
      var invoice := invoices[k];
      var balance := Net(invoice) - PaidOn(payments, k);
      if invoice.status == CancelledInvoice || invoice.status == WrittenOff {
        return;
      }
      var newStatus := Issued;
      if balance <= 0 {
        newStatus := Settled;
      } else if balance < Net(invoice) {
        newStatus := PartiallyPaid;
      }
      invoices := invoices[k := invoice.(status := newStatus)];
    }

    /** A pending payment becomes confirmed under a receipt number never used before; its
        invoice's balance falls by exactly its amount and no other balance moves. */
    method ConfirmPayment(p: nat)
      requires p < |payments| && payments[p].status == Pending
      modifies this
      ensures Confirms(old(Rows()), Rows(), p)
      ensures old(Valid()) ==> Valid() && forall q :: 0 <= q < |old(payments)| ==> old(payments)[q].receipt != Some(receipts)
      ensures Rows() == Confirming(old(Rows()), p)
    {
      ConfirmingEffect(Rows(), p);
      hide Sound, Confirms, PaidOn, DerivedStatus;
      receipts := receipts + 1;
      payments := payments[p := payments[p].(status := Confirmed, receipt := Some(receipts))];
      if payments[p].invoice < |invoices| {
        RefreshInvoiceStatus(payments[p].invoice);
      }
    }

    /** A payment is recorded exactly when the method is manual, the invoice exists and the
        reference is new. Cash lowers that invoice's balance by exactly the amount; nothing
        else moves any balance. */
    method Record(invoice: nat, means: Method, amount: int, reference: string) returns (r: Outcome)
      requires Valid()
      modifies this
      ensures amount > 0 ==> Valid()
      ensures r.Created? <==>
                means in {Cash, Cheque, BankSlip} && invoice < |old(invoices)| && reference != "" && Unused(old(payments), reference)
      ensures r == InvalidMethod <==> means !in {Cash, Cheque, BankSlip}
      ensures r == NoSuchRow <==> means in {Cash, Cheque, BankSlip} && invoice >= |old(invoices)|
      ensures r.Created? || r == InvalidMethod || r == NoSuchRow || r == InvalidReference
      ensures r.Created? ==> r.key == |old(payments)| && |payments| == r.key + 1 && payments[..r.key] == old(payments)
      ensures r.Created? ==> Opened(payments[r.key], if means == Cash then Some(old(receipts) + 1) else None)
      ensures refunds == old(refunds) && receipts == old(receipts) + if r.Created? && means == Cash then 1 else 0
      ensures r.Created? ==> RecordedAs(payments[r.key], invoice, means, amount, reference)
      ensures r.Created? ==> BalancesShift(old(Rows()), Rows(), invoice, if means == Cash then amount else 0)
      ensures r.Created? ==> TotalConfirmed(payments) == TotalConfirmed(old(payments)) + if means == Cash then amount else 0
      ensures !r.Created? ==> Rows() == old(Rows())
      ensures r == Verdict(old(Rows()), RecordManualPayment(invoice, means, amount, reference))
      ensures Rows() == Step(old(Rows()), RecordManualPayment(invoice, means, amount, reference))
    {
      RecordingEffect(Rows(), invoice, means, amount, reference);
      if !IsManual(means) {
        return InvalidMethod;
      }
      if invoice >= |invoices| {
        return NoSuchRow;
      }
      if reference == "" || ReferenceIndex(payments, reference) < |payments| {
        return InvalidReference;
      }
      var key := |payments|;
      payments := payments + [Payment(invoice, means, amount, reference, Pending, None)];
      if means == Cash {
        ConfirmPayment(key);
      }
      r := Created(key);
    }

    /** Exactly the pending payments can be confirmed, so none is confirmed twice: each
        lowers its invoice's balance once, by its amount. */
    method ConfirmManual(p: nat) returns (r: Outcome)
      requires Valid()
      modifies this
      ensures Valid() && (r == Done <==> p < |old(payments)| && old(payments)[p].status == Pending)
      ensures r == NotPending <==> p < |old(payments)| && old(payments)[p].status != Pending
      ensures r == Done ==> Confirms(old(Rows()), Rows(), p)
      ensures r != Done ==> Rows() == old(Rows())
      ensures r == Verdict(old(Rows()), ConfirmManualPayment(p))
      ensures Rows() == Step(old(Rows()), ConfirmManualPayment(p))
    {
      StepKeepsSound(Rows(), ConfirmManualPayment(p));
      if p >= |payments| {
        return NoSuchRow;
      }
      if payments[p].status != Pending {
        return NotPending;
      }
      ConfirmPayment(p);
      r := Done;
    }

    /** Exactly the pending payments can be rejected, with a reason; no balance moves, and
        the payment can never be confirmed afterwards. */
    method RejectManual(p: nat, reasonGiven: bool) returns (r: Outcome)
      requires Valid()
      modifies this
      ensures Valid() && (r == Done <==> p < |old(payments)| && reasonGiven && old(payments)[p].status == Pending)
      ensures p < |old(payments)| ==> (r == ReasonRequired <==> !reasonGiven)
      ensures r == Done ==> Closes(old(Rows()), Rows(), p, Failed)
      ensures r != Done ==> Rows() == old(Rows())
      ensures r == Verdict(old(Rows()), RejectManualPayment(p, reasonGiven))
      ensures Rows() == Step(old(Rows()), RejectManualPayment(p, reasonGiven))
    {
      StepKeepsSound(Rows(), RejectManualPayment(p, reasonGiven));
      ClosingEffect(Rows(), p, Failed);
      if p >= |payments| {
        return NoSuchRow;
      }
      if !reasonGiven {
        return ReasonRequired;
      }
      if payments[p].status != Pending {
        return NotPending;
      }
      payments := payments[p := payments[p].(status := Failed)];
      r := Done;
    }

    /** A mobile payment is opened exactly when something is asked for or due, under a new
        reference. It moves no balance until it is confirmed; when no amount is named, it
        is for exactly what is owed. */
    method InitiateMobile(invoice: nat, asked: Option<int>, reference: string) returns (r: Outcome)
      requires Valid()
      modifies this
      ensures Valid()
      ensures r.Created? <==>
                && invoice < |old(invoices)| && reference != "" && Unused(old(payments), reference)
                && (if asked.Some? then asked.value > 0 else Due(old(Rows()), invoice))
      ensures invoices == old(invoices)
      ensures r.Created? ==> r.key == |old(payments)| && |payments| == r.key + 1 && payments[..r.key] == old(payments)
      ensures r.Created? ==>
                && invoice < |old(invoices)|
                && RecordedAs(payments[r.key], invoice, MobileMoney, if asked.Some? then asked.value else Balance(old(Rows()), invoice),
                              reference)
                && payments[r.key].amount > 0 && Opened(payments[r.key], None)
      ensures refunds == old(refunds) && receipts == old(receipts)
      ensures r == NoSuchRow <==> invoice >= |old(invoices)|
      ensures r == NothingDue <==>
                invoice < |old(invoices)| && !(if asked.Some? then asked.value > 0 else Due(old(Rows()), invoice))
      ensures r.Created? || r == NoSuchRow || r == NothingDue || r == InvalidReference
      ensures r.Created? ==> BalancesShift(old(Rows()), Rows(), invoice, 0)
      ensures !r.Created? ==> Rows() == old(Rows())
      ensures r == Verdict(old(Rows()), InitiateMobilePayment(invoice, asked, reference))
      ensures Rows() == Step(old(Rows()), InitiateMobilePayment(invoice, asked, reference))
    {
      StepKeepsSound(Rows(), InitiateMobilePayment(invoice, asked, reference));
      AddingEffect(Rows(), Payment(invoice, MobileMoney, asked.GetOr(if invoice < |invoices| then Balance(Rows(), invoice) else 0),
                                   reference, Pending, None));
      if invoice >= |invoices| {
        return NoSuchRow;
      }
      var requested := asked.GetOr(Net(invoices[invoice]) - PaidOn(payments, invoice));
      if requested <= 0 {
        return NothingDue;
      }
      if reference == "" || ReferenceIndex(payments, reference) < |payments| {
        return InvalidReference;
      }
      r := Created(|payments|);
      payments := payments + [Payment(invoice, MobileMoney, requested, reference, Pending, None)];
    }

    /** A pending payment follows the provider's word: its balance moves if and only if the
        provider confirms it. A payment that is no longer pending is left alone. */
    method PollMobile(p: nat, state: ProviderState) returns (r: Outcome)
      requires Valid()
      modifies this
      ensures Valid() && (r == Done <==> p < |old(payments)| && old(payments)[p].status == Pending && state != StillPending)
      ensures r == Done && state == ProviderConfirmed ==> Confirms(old(Rows()), Rows(), p)
      ensures r == Done && state != ProviderConfirmed ==>
                Closes(old(Rows()), Rows(), p, if state == ProviderFailed then Failed else Cancelled)
      ensures r != Done ==> Rows() == old(Rows())
      ensures r == Verdict(old(Rows()), PollMobilePayment(p, state))
      ensures Rows() == Step(old(Rows()), PollMobilePayment(p, state))
    {
      StepKeepsSound(Rows(), PollMobilePayment(p, state));
      ClosingEffect(Rows(), p, if state == ProviderFailed then Failed else Cancelled);
      if p >= |payments| {
        return NoSuchRow;
      }
      if payments[p].status != Pending {
        return Nothing;
      }
      if state == ProviderConfirmed {
        ConfirmPayment(p);
        return Done;
      }
      if state == ProviderFailed || state == ProviderCancelled {
        payments := payments[p := payments[p].(status := if state == ProviderFailed then Failed else Cancelled)];
        return Done;
      }
      r := Nothing;
    }

    /** A callback changes something exactly when it is genuine, says confirmed, and names
        the reference of a pending payment; then it confirms that payment. */
    method HandleWebhook(genuine: bool, state: ProviderState, reference: string) returns (r: Outcome)
      requires Valid()
      modifies this
      ensures Valid()
      ensures r == Done <==> genuine && state == ProviderConfirmed && exists p :: PendingUnder(old(payments), p, reference)
      ensures forall p :: r == Done && PendingUnder(old(payments), p, reference) ==> Confirms(old(Rows()), Rows(), p)
      ensures r != Done ==> Rows() == old(Rows())
      ensures r == Verdict(old(Rows()), PaymentWebhook(genuine, state, reference))
      ensures Rows() == Step(old(Rows()), PaymentWebhook(genuine, state, reference))
    {
      WebhookEffect(Rows(), genuine, state, reference);
      if !genuine || state != ProviderConfirmed {
        return Nothing;
      }
      var k := ReferenceIndex(payments, reference);
      if k >= |payments| || payments[k].status != Pending {
        return Nothing;
      }
      ConfirmPayment(k);
      r := Done;
    }

    /** A refund is recorded exactly when a reason is given, the payment is confirmed and
        the amount fits what is unclaimed of it; it claims exactly that amount. */
    method Request(p: nat, amount: int, reasonGiven: bool) returns (r: Outcome)
      requires Valid()
      modifies this
      ensures amount > 0 ==> Valid()
      ensures r.Created? <==>
                && reasonGiven && p < |old(payments)| && old(payments)[p].status == Confirmed
                && Claimed(old(refunds), p) + amount <= old(payments)[p].amount
      ensures r.Created? ==> r.key == |old(refunds)| && refunds == old(refunds) + [Refund(p, amount, Requested)]
      ensures r == ReasonRequired <==> !reasonGiven
      ensures reasonGiven ==> (r == NoSuchRow <==> p >= |old(payments)|)
      ensures reasonGiven && p < |old(payments)| ==> (r == NotConfirmed <==> old(payments)[p].status != Confirmed)
      ensures r.Created? ==> ClaimsShift(old(refunds), refunds, p, amount) && TotalPaidOut(refunds) == TotalPaidOut(old(refunds))
      ensures r.Created? ==> invoices == old(invoices) && payments == old(payments) && receipts == old(receipts)
      ensures !r.Created? ==> Rows() == old(Rows())
      ensures r == Verdict(old(Rows()), RequestRefund(p, amount, reasonGiven))
      ensures Rows() == Step(old(Rows()), RequestRefund(p, amount, reasonGiven))
    {
      RequestEffect(Rows(), p, amount, reasonGiven);
      if !reasonGiven {
        return ReasonRequired;
      }
      if p >= |payments| {
        return NoSuchRow;
      }
      if payments[p].status != Confirmed {
        return NotConfirmed;
      }
      if amount > payments[p].amount - Claimed(refunds, p) {
        return ExceedsPayment;
      }
      r := Created(|refunds|);
      refunds := refunds + [Refund(p, amount, Requested)];
    }

    /** Exactly the requested refunds can be decided, with notes. Approval leaves the claim;
        rejection gives exactly its amount back to the payment. Nothing is paid out yet. */
    method Decide(k: nat, approve: bool, notesGiven: bool) returns (r: Outcome)
      requires Valid()
      modifies this
      ensures Valid() && (r == Done <==> k < |old(refunds)| && notesGiven && old(refunds)[k].status == Requested)
      ensures r == Done ==> refunds == old(refunds)[k := old(refunds)[k].(status := if approve then Approved else Rejected)]
      ensures k < |old(refunds)| ==> (r == ReasonRequired <==> !notesGiven)
      ensures r == Done ==>
                var refund := old(refunds)[k];
                ClaimsShift(old(refunds), refunds, refund.payment, if approve then 0 else -refund.amount)
      ensures r == Done ==> TotalPaidOut(refunds) == TotalPaidOut(old(refunds))
      ensures invoices == old(invoices) && payments == old(payments) && receipts == old(receipts)
      ensures r != Done ==> Rows() == old(Rows())
      ensures r == Verdict(old(Rows()), DecideRefund(k, approve, notesGiven))
      ensures Rows() == Step(old(Rows()), DecideRefund(k, approve, notesGiven))
    {
      StepKeepsSound(Rows(), DecideRefund(k, approve, notesGiven));
      if k < |refunds| && refunds[k].status == Requested {
        RefundRestatused(refunds, k, if approve then Approved else Rejected);
      }
      if k >= |refunds| {
        return NoSuchRow;
      }
      if !notesGiven {
        return ReasonRequired;
      }
      if refunds[k].status != Requested {
        return InvalidTransition;
      }
      refunds := refunds[k := refunds[k].(status := if approve then Approved else Rejected)];
      r := Done;
    }

    /** Exactly the approved refunds can be paid out: the total paid out rises by exactly
        the refund, once, and stays within what was confirmed. */
    method PayRefund(k: nat) returns (r: Outcome)
      requires Valid()
      modifies this
      ensures Valid() && (r == Done <==> k < |old(refunds)| && old(refunds)[k].status == Approved)
      ensures r == Done ==> refunds == old(refunds)[k := old(refunds)[k].(status := PaidOut)]
      ensures r == Done ==> TotalPaidOut(refunds) == TotalPaidOut(old(refunds)) + old(refunds)[k].amount
      ensures TotalPaidOut(refunds) <= TotalConfirmed(payments)
      ensures r == Done ==> ClaimsShift(old(refunds), refunds, old(refunds)[k].payment, 0)
      ensures invoices == old(invoices) && payments == old(payments) && receipts == old(receipts)
      ensures r != Done ==> Rows() == old(Rows())
      ensures r == Verdict(old(Rows()), MarkRefundPaid(k))
      ensures Rows() == Step(old(Rows()), MarkRefundPaid(k))
    {
      StepKeepsSound(Rows(), MarkRefundPaid(k));
      PaidOutBounded(Step(Rows(), MarkRefundPaid(k)));
      if k < |refunds| && refunds[k].status == Approved {
        RefundRestatused(refunds, k, PaidOut);
      }
      if k >= |refunds| {
        return NoSuchRow;
      }
      if refunds[k].status != Approved {
        return InvalidTransition;
      }
      refunds := refunds[k := refunds[k].(status := PaidOut)];
      r := Done;
    }

    /** The sync handler for payments captured offline: an accepted payload leaves exactly
        one payment under its reference, with its amount and method; a conflicting one, or
        one seen before, changes nothing. */
    method ApplyOffline(payload: Payload) returns (r: Outcome)
      requires Valid()
      modifies this
      ensures (payload.amount.Some? && payload.amount.value.Cents? ==> payload.amount.value.cents > 0) ==> Valid()
      ensures Accepted(r) ==>
                && WellFormed(payload) && r.key < |payments| && Agrees(payments[r.key], payload)
                && forall q :: 0 <= q < |payments| && payments[q].reference == payload.reference.value ==> q == r.key
      ensures r.Conflict? ==> WellFormed(payload) && exists q :: 0 <= q < |payments| && Contradicts(payments[q], payload)
      ensures r.Found? || r.Conflict? <==> WellFormed(payload) && !Unused(old(payments), payload.reference.value)
      ensures r == MissingField <==>
                payload.invoice.None? || payload.means.None? || payload.amount.None? || payload.reference.None?
                || payload.reference.value == ""
      ensures r == InvalidMethod || r == InvalidAmount ==> !WellFormed(payload)
      ensures r.Created? <==>
                WellFormed(payload) && Unused(old(payments), payload.reference.value) && payload.invoice.value < |old(invoices)|
      ensures r.Created? ==>
                && r.key == |old(payments)| && |payments| == r.key + 1 && payments[..r.key] == old(payments)
                && payments[r.key].invoice == payload.invoice.value
      ensures r.Created? ==>
                BalancesShift(old(Rows()), Rows(), payload.invoice.value,
                              if payload.means.value == Cash then payload.amount.value.cents else 0)
      ensures !r.Created? ==> Rows() == old(Rows())
      ensures r == Verdict(old(Rows()), OfflinePayment(payload))
      ensures Rows() == Step(old(Rows()), OfflinePayment(payload))
    {
      OfflineAnswered(Rows(), payload);
      if Accepted(OfflineVerdict(Rows(), payload)) {
        OfflineAccepted(Rows(), payload);
      }
      if OfflineVerdict(Rows(), payload).Created? {
        OfflineCreated(Rows(), payload);
      }
      if Sensible(OfflinePayment(payload)) {
        StepKeepsSound(Rows(), OfflinePayment(payload));
      }
      if payload.invoice.None? || payload.means.None? || payload.amount.None? || payload.reference.None?
         || payload.reference.value == "" {
        return MissingField;
      }
      if !IsManual(payload.means.value) {
        return InvalidMethod;
      }
      if payload.amount.value.NotANumber? {
        return InvalidAmount;
      }
      var k := ReferenceIndex(payments, payload.reference.value);
      if k < |payments| {
        if payments[k].amount != payload.amount.value.cents || payments[k].means != payload.means.value {
          return Conflict;
        }
        return Found(k);
      }
      r := Record(payload.invoice.value, payload.means.value, payload.amount.value.cents, payload.reference.value);
    }
  }
}
