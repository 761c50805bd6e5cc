/** The finance ledger: invoices, payments and refunds in integer cents, the cached
    invoice status, and the operations that move them. */
module FinanceLedger {
  import opened Common

  datatype InvoiceStatus = Issued | PartiallyPaid | Settled | CancelledInvoice | WrittenOff

  datatype Invoice = Invoice(student: int, semester: int, year: int, amount: int, discount: int, status: InvoiceStatus)

  datatype Method = MobileMoney | BankSlip | Cash | Cheque | Unlisted(name: string)

  datatype PaymentStatus = Pending | Confirmed | Failed | Cancelled

  datatype Payment = Payment(invoice: nat, means: Method, amount: int, reference: string,
                             status: PaymentStatus, receipt: Option<nat>)

  datatype RefundStatus = Requested | Approved | Rejected | PaidOut

  datatype Refund = Refund(payment: nat, amount: int, status: RefundStatus)

  /** The stored rows; a row's key is its position. `receipts` is the receipt counter. */
  datatype Books = Books(invoices: seq<Invoice>, payments: seq<Payment>, refunds: seq<Refund>, receipts: nat)

  const EmptyBooks := Books([], [], [], 0)

  // ------------------------------------------------------------ scholarships

  datatype Coverage = Percentage(hundredths: int) | FixedAmount(cents: Option<int>)

  datatype Scholarship = Scholarship(coverage: Coverage, isActive: bool)

  function DiscountFor(s: Scholarship, amount: int): int {
    if !s.isActive then 0
    else
      var discount := match s.coverage
        case Percentage(hundredths) => RoundHalfEven(amount * hundredths, 10000)
        case FixedAmount(cents) => cents.GetOr(0);
      Min(discount, amount)
  }

  predicate SensibleScholarship(s: Scholarship) {
    match s.coverage
    case Percentage(hundredths) => 0 <= hundredths <= 10000
    case FixedAmount(cents) => cents.Some? ==> cents.value >= 0
  }

  /** A discount never exceeds what it discounts nor goes negative; a percentage award is
      within half a cent of the exact share, even when exactly between two cents; a fixed
      award is taken off in full while there is anything to take it off; and an inactive
      award takes nothing. */
  lemma DiscountBounded(s: Scholarship, amount: int)
    requires SensibleScholarship(s) && amount >= 0
    ensures 0 <= DiscountFor(s, amount) <= amount
    ensures s.isActive && s.coverage.Percentage? ==>
            var off := 10000 * DiscountFor(s, amount) - amount * s.coverage.hundredths;
            -5000 <= off <= 5000 && (off in {-5000, 5000} ==> DiscountFor(s, amount) % 2 == 0)
    ensures s.isActive && s.coverage.FixedAmount? ==>
            DiscountFor(s, amount) == var c := s.coverage.cents.GetOr(0); if c <= amount then c else amount
    ensures !s.isActive ==> DiscountFor(s, amount) == 0
  {
    if s.isActive && s.coverage.Percentage? {
      var n := amount * s.coverage.hundredths;
      assert n == 10000 * (n / 10000) + n % 10000;
      assert 0 <= n <= 10000 * amount;
    }
  }

  // ----------------------------------------------------------------- balances

  function Net(i: Invoice): int { i.amount - i.discount }

  /** Sum of the confirmed payments of invoice `k`. */
  function PaidOn(payments: seq<Payment>, k: nat): int {
    if payments == [] then 0
    else
      var p := payments[|payments| - 1];
      PaidOn(payments[..|payments| - 1], k) + if p.invoice == k && p.status == Confirmed then p.amount else 0
  }

  function Balance(b: Books, k: nat): int
    requires k < |b.invoices|
  {
    Net(b.invoices[k]) - PaidOn(b.payments, k)
  }

  /** `_refresh_invoice_status`. */
  function Refreshed(i: Invoice, balance: int): Invoice {
    if i.status in {CancelledInvoice, WrittenOff} then i
    else i.(status := if balance <= 0 then Settled else if balance < Net(i) then PartiallyPaid else Issued)
  }

  /** Non-rejected refunds of payment `p`. */
  function Claimed(refunds: seq<Refund>, p: nat): int {
    if refunds == [] then 0
    else
      var r := refunds[|refunds| - 1];
      Claimed(refunds[..|refunds| - 1], p) + if r.payment == p && r.status != Rejected then r.amount else 0
  }

  function ReferenceIndex(payments: seq<Payment>, reference: string): (k: nat)
    ensures k <= |payments|
    ensures k < |payments| ==> payments[k].reference == reference
    ensures forall i :: 0 <= i < k ==> payments[i].reference != reference
  {
    if payments == [] then 0
    else if payments[0].reference == reference then 0
    else 1 + ReferenceIndex(payments[1..], reference)
  }

  predicate Invoiced(invoices: seq<Invoice>, student: int, semester: int) {
    exists i :: 0 <= i < |invoices| && invoices[i].student == student && invoices[i].semester == semester
  }

  // --------------------------------------------------------------- operations

  datatype ProviderState = StillPending | ProviderConfirmed | ProviderFailed | ProviderCancelled

  datatype Amount = NotANumber | Cents(cents: int)

  /** A queued manual payment; a missing or empty field reads as `None`. */
  datatype Payload = Payload(invoice: Option<nat>, means: Option<Method>, amount: Option<Amount>, reference: Option<string>)

  datatype Event =
    | GenerateInvoice(student: int, semester: int, year: int, fee: Option<int>, hostelFee: int, award: Option<Scholarship>)
    | RecordManualPayment(invoice: nat, means: Method, amount: int, reference: string)
    | ConfirmManualPayment(payment: nat)
    | RejectManualPayment(payment: nat, reasonGiven: bool)
    | InitiateMobilePayment(invoice: nat, asked: Option<int>, reference: string)
    | PollMobilePayment(payment: nat, state: ProviderState)
    | PaymentWebhook(genuine: bool, state: ProviderState, reference: string)
    | RequestRefund(payment: nat, amount: int, reasonGiven: bool)
    | DecideRefund(refund: nat, approve: bool, notesGiven: bool)
    | MarkRefundPaid(refund: nat)
    | OfflinePayment(payload: Payload)

  datatype Outcome =
    | Created(key: nat) | Found(key: nat) | Done | Nothing
    | NoSuchRow | DuplicateInvoice | NoFeeStructure | InvalidInvoice | InvalidMethod | InvalidReference
    | NotPending | NothingDue | ReasonRequired | NotConfirmed | ExceedsPayment | InvalidTransition
    | MissingField | InvalidAmount | Conflict

  predicate IsManual(m: Method) { m in {Cash, Cheque, BankSlip} }

  /** `_confirm_payment`: a receipt is issued and the invoice status refreshed. */
  function Confirming(b: Books, p: nat): Books
    requires p < |b.payments|
  {
    var payments := b.payments[p := b.payments[p].(status := Confirmed, receipt := Some(b.receipts + 1))];
    var k := b.payments[p].invoice;
    var invoices := if k < |b.invoices|
                    then b.invoices[k := Refreshed(b.invoices[k], Net(b.invoices[k]) - PaidOn(payments, k))]
                    else b.invoices;
    Books(invoices, payments, b.refunds, b.receipts + 1)
  }

  function Recording(b: Books, invoice: nat, means: Method, amount: int, reference: string): Books {
    var with := b.(payments := b.payments + [Payment(invoice, means, amount, reference, Pending, None)]);
    if means == Cash then Confirming(with, |b.payments|) else with
  }

  function NewInvoice(e: Event): Invoice
    requires e.GenerateInvoice? && e.fee.Some?
  {
    var discount := if e.award.Some? && e.award.value.isActive then DiscountFor(e.award.value, e.fee.value) else 0;
    Invoice(e.student, e.semester, e.year, e.fee.value + e.hostelFee, discount, Issued)
  }

  function RecordVerdict(b: Books, invoice: nat, means: Method, reference: string): Outcome {
    if !IsManual(means) then InvalidMethod
    else if invoice >= |b.invoices| then NoSuchRow
    else if reference == "" || ReferenceIndex(b.payments, reference) < |b.payments| then InvalidReference
    else Created(|b.payments|)
  }

  function OfflineVerdict(b: Books, p: Payload): Outcome {
    if p.invoice.None? || p.means.None? || p.amount.None? || p.reference.None? || p.reference.value == "" then MissingField
    else if !IsManual(p.means.value) then InvalidMethod
    else if p.amount.value.NotANumber? then InvalidAmount
    else
      var k := ReferenceIndex(b.payments, p.reference.value);
      if k < |b.payments| then
        if b.payments[k].amount != p.amount.value.cents || b.payments[k].means != p.means.value then Conflict else Found(k)
      else RecordVerdict(b, p.invoice.value, p.means.value, p.reference.value)
  }

  /** What an operation answers; the error cases in the order the code checks them. */
  function Verdict(b: Books, e: Event): Outcome {
    match e
    case GenerateInvoice(student, semester, _, fee, _, _) =>
      if Invoiced(b.invoices, student, semester) then DuplicateInvoice
      else if fee.None? then NoFeeStructure
      else if NewInvoice(e).discount > NewInvoice(e).amount then InvalidInvoice
      else Created(|b.invoices|)
    case RecordManualPayment(invoice, means, _, reference) => RecordVerdict(b, invoice, means, reference)
    case ConfirmManualPayment(p) =>
      if p >= |b.payments| then NoSuchRow else if b.payments[p].status != Pending then NotPending else Done
    case RejectManualPayment(p, reasonGiven) =>
      if p >= |b.payments| then NoSuchRow
      else if !reasonGiven then ReasonRequired
      else if b.payments[p].status != Pending then NotPending
      else Done
    case InitiateMobilePayment(invoice, amount, reference) =>
      if invoice >= |b.invoices| then NoSuchRow
      else if amount.GetOr(Balance(b, invoice)) <= 0 then NothingDue
      else if reference == "" || ReferenceIndex(b.payments, reference) < |b.payments| then InvalidReference
      else Created(|b.payments|)
    case PollMobilePayment(p, state) =>
      if p >= |b.payments| then NoSuchRow
      else if b.payments[p].status != Pending || state == StillPending then Nothing
      else Done
    case PaymentWebhook(genuine, state, reference) =>
      var k := ReferenceIndex(b.payments, reference);
      if !genuine || state != ProviderConfirmed then Nothing
      else if k >= |b.payments| || b.payments[k].status != Pending then Nothing
      else Done
    case RequestRefund(p, amount, reasonGiven) =>
      if !reasonGiven then ReasonRequired
      else if p >= |b.payments| then NoSuchRow
      else if b.payments[p].status != Confirmed then NotConfirmed
      else if amount > b.payments[p].amount - Claimed(b.refunds, p) then ExceedsPayment
      else Created(|b.refunds|)
    case DecideRefund(r, _, notesGiven) =>
      if r >= |b.refunds| then NoSuchRow
      else if !notesGiven then ReasonRequired
      else if b.refunds[r].status != Requested then InvalidTransition
      else Done
    case MarkRefundPaid(r) =>
      if r >= |b.refunds| then NoSuchRow else if b.refunds[r].status != Approved then InvalidTransition else Done
    case OfflinePayment(payload) => OfflineVerdict(b, payload)
  }

  /** The books after an operation that was not refused. */
  function Effect(b: Books, e: Event): Books
    requires Verdict(b, e).Created? || Verdict(b, e).Done?
  {
    match e
    case GenerateInvoice(_, _, _, _, _, _) => b.(invoices := b.invoices + [NewInvoice(e)])
    case RecordManualPayment(invoice, means, amount, reference) => Recording(b, invoice, means, amount, reference)
    case ConfirmManualPayment(p) => Confirming(b, p)
    case RejectManualPayment(p, _) => b.(payments := b.payments[p := b.payments[p].(status := Failed)])
    case InitiateMobilePayment(invoice, amount, reference) =>
      b.(payments := b.payments + [Payment(invoice, MobileMoney, amount.GetOr(Balance(b, invoice)), reference, Pending, None)])
    case PollMobilePayment(p, state) =>
      if state == ProviderConfirmed then Confirming(b, p)
      else b.(payments := b.payments[p := b.payments[p].(status := if state == ProviderFailed then Failed else Cancelled)])
    case PaymentWebhook(_, _, reference) => Confirming(b, ReferenceIndex(b.payments, reference))
    case RequestRefund(p, amount, _) => b.(refunds := b.refunds + [Refund(p, amount, Requested)])
    case DecideRefund(r, approve, _) =>
      b.(refunds := b.refunds[r := b.refunds[r].(status := if approve then Approved else Rejected)])
    case MarkRefundPaid(r) => b.(refunds := b.refunds[r := b.refunds[r].(status := PaidOut)])
    case OfflinePayment(p) => Recording(b, p.invoice.value, p.means.value, p.amount.value.cents, p.reference.value)
  }

  function Step(b: Books, e: Event): Books {
    if Verdict(b, e).Created? || Verdict(b, e).Done? then Effect(b, e) else b
  }

  function Run(b: Books, events: seq<Event>): Books
    decreases events
  {
    if events == [] then b else Run(Step(b, events[0]), events[1..])
  }
}
