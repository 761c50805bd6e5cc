/** The three reports that trust the cached status, refund conservation, and
    first-write-wins for payments captured offline. */
module FinanceReports {
  import opened Common
  import opened FinanceLedger
  import opened FinanceRuns

  /** Books some run of sensible operations leads to. */
  ghost predicate Reachable(b: Books) {
    exists events: seq<Event> :: AllSensible(events) && Run(EmptyBooks, events) == b
  }

  ghost predicate AllSensible(events: seq<Event>) {
    forall e :: e in events ==> Sensible(e)
  }

  lemma ReachableSound(b: Books)
    requires Reachable(b)
    ensures Sound(b)
  {
    var events: seq<Event> :| AllSensible(events) && Run(EmptyBooks, events) == b;
    RunKeepsSound(EmptyBooks, events);
  }

  // ------------------------------------------------------------ status cache

  ghost predicate AnyConfirmed(b: Books, k: nat) {
    exists p :: 0 <= p < |b.payments| && b.payments[p].invoice == k && b.payments[p].status == Confirmed
  }

  /** In every reachable state the stored status says what the payments say. */
  lemma StatusCacheAgrees(b: Books, k: nat)
    requires Reachable(b) && k < |b.invoices|
    ensures var net, paid, status := Net(b.invoices[k]), PaidOn(b.payments, k), b.invoices[k].status;
            && (status == Issued <==> !AnyConfirmed(b, k))
            && (status == PartiallyPaid <==> 0 < paid < net)
            && (status == Settled <==> paid > 0 && paid >= net)
  {
    ReachableSound(b);
    assert InvoiceSound(b, k);
    forall p | 0 <= p < |b.payments|
      ensures b.payments[p].amount > 0
    {
      assert PaymentSound(b, p);
    }
    PaidNonNegative(b.payments, k);
  }

  // ----------------------------------------------------------------- reports

  datatype Scope = Everything | OfYear(year: int) | OfSemester(semester: int) | OfStudent(student: int)

  predicate InScope(i: Invoice, scope: Scope) {
    match scope
    case Everything => true
    case OfYear(year) => i.year == year
    case OfSemester(semester) => i.semester == semester
    case OfStudent(student) => i.student == student
  }

  predicate Unsettled(i: Invoice) { i.status in {Issued, PartiallyPaid} }

  /** Balances of the unsettled invoices among the first `n`: what both the fee-balance
      hold and the revenue summary add up. */
  function Outstanding(b: Books, scope: Scope, n: nat): int
    requires n <= |b.invoices|
  {
    if n == 0 then 0
    else Outstanding(b, scope, n - 1)
         + if InScope(b.invoices[n - 1], scope) && Unsettled(b.invoices[n - 1]) then Balance(b, n - 1) else 0
  }

  function Invoices(b: Books, scope: Scope, n: nat, discounts: bool): int
    requires n <= |b.invoices|
  {
    if n == 0 then 0
    else
      var i := b.invoices[n - 1];
      Invoices(b, scope, n - 1, discounts)
      + if !InScope(i, scope) then 0 else if discounts then i.discount else i.amount
  }

  function FeeBalance(b: Books, student: int): int {
    Outstanding(b, OfStudent(student), |b.invoices|)
  }

  datatype Revenue = Revenue(invoiced: int, discount: int, netBilled: int, collected: int, outstanding: int)

  function RevenueSummary(b: Books, scope: Scope): Revenue {
    var invoiced := Invoices(b, scope, |b.invoices|, false);
    var discount := Invoices(b, scope, |b.invoices|, true);
    var outstanding := Outstanding(b, scope, |b.invoices|);
    Revenue(invoiced, discount, invoiced - discount, invoiced - discount - outstanding, outstanding)
  }

  lemma {:induction false} InvoicesBefore(b: Books, x: Invoice, scope: Scope, n: nat, discounts: bool)
    requires n <= |b.invoices|
    ensures Invoices(b.(invoices := b.invoices + [x]), scope, n, discounts) == Invoices(b, scope, n, discounts)
  {
    if n > 0 {
      InvoicesBefore(b, x, scope, n - 1, discounts);
    }
  }

  /** What the revenue totals count: nothing when nothing is invoiced, and each further
      invoice of the year, semester or student in question in full, with its discount. */
  lemma RevenueAddsUp(b: Books, x: Invoice, scope: Scope)
    ensures var before, after := RevenueSummary(b, scope), RevenueSummary(b.(invoices := b.invoices + [x]), scope);
            var counts := match scope
              case Everything => true
              case OfYear(year) => x.year == year
              case OfSemester(semester) => x.semester == semester
              case OfStudent(student) => x.student == student;
            && after.invoiced == before.invoiced + (if counts then x.amount else 0)
            && after.discount == before.discount + (if counts then x.discount else 0)
            && before.netBilled == before.invoiced - before.discount == before.collected + before.outstanding
            && (b.invoices == [] ==> before == Revenue(0, 0, 0, 0, 0))
  {
    InvoicesBefore(b, x, scope, |b.invoices|, false);
    InvoicesBefore(b, x, scope, |b.invoices|, true);
  }

  datatype DefaulterRow = DefaulterRow(invoice: nat, balance: int)

  /** The rows are the cached-unsettled invoices in scope, from the `n`th on, with a
      positive balance, each with that balance: newest first, as invoices are ordered. */
  ghost predicate ListsDefaulters(b: Books, scope: Scope, n: nat, rows: seq<DefaulterRow>)
    requires n <= |b.invoices|
  {
    && (forall i :: 0 <= i < |rows| ==> n <= rows[i].invoice < |b.invoices|)
    && (forall i :: 0 <= i < |rows| ==> Defaults(b, scope, rows[i].invoice) && rows[i].balance == Balance(b, rows[i].invoice))
    && (forall i, j :: 0 <= i < j < |rows| ==> rows[i].invoice > rows[j].invoice)
    && (forall k: nat :: n <= k && Defaults(b, scope, k) ==> DefaulterRow(k, Balance(b, k)) in rows)
    && Total(rows) == Owed(b, scope, |b.invoices|, true) - Owed(b, scope, n, true)
  }

  predicate Defaults(b: Books, scope: Scope, k: nat) {
    k < |b.invoices| && InScope(b.invoices[k], scope) && Unsettled(b.invoices[k]) && Balance(b, k) > 0
  }

  lemma DefaulterSkipped(b: Books, scope: Scope, n: nat, rows: seq<DefaulterRow>)
    requires n < |b.invoices| && ListsDefaulters(b, scope, n + 1, rows) && !Defaults(b, scope, n)
    ensures ListsDefaulters(b, scope, n, rows)
  {
  }

  lemma DefaulterListed(b: Books, scope: Scope, n: nat, rows: seq<DefaulterRow>)
    requires n < |b.invoices| && ListsDefaulters(b, scope, n + 1, rows) && Defaults(b, scope, n)
    ensures ListsDefaulters(b, scope, n, rows + [DefaulterRow(n, Balance(b, n))])
  {
    var more := rows + [DefaulterRow(n, Balance(b, n))];
    assert more[..|rows|] == rows;
    assert more[|rows|] == DefaulterRow(n, Balance(b, n));
  }

  method DefaulterReport(b: Books, scope: Scope) returns (rows: seq<DefaulterRow>)
    ensures ListsDefaulters(b, scope, 0, rows)
  {
    rows := [];
    assert ListsDefaulters(b, scope, |b.invoices|, rows);
    hide ListsDefaulters;
    for n := |b.invoices| downto 0
      invariant ListsDefaulters(b, scope, n, rows)
    {
      if !InScope(b.invoices[n], scope) || !Unsettled(b.invoices[n]) {
        DefaulterSkipped(b, scope, n, rows);
        continue;
      }
      var balance := Balance(b, n);
      if balance <= 0 {
        DefaulterSkipped(b, scope, n, rows);
        continue;
      }
      DefaulterListed(b, scope, n, rows);
      rows := rows + [DefaulterRow(n, balance)];
    }
  }

  function Total(rows: seq<DefaulterRow>): int {
    if rows == [] then 0 else Total(rows[..|rows| - 1]) + rows[|rows| - 1].balance
  }

  /** What is really owed: the positive part of net less paid, over all invoices in
      scope, or only over those the cache shows as unsettled. */
  function Owed(b: Books, scope: Scope, n: nat, cached: bool): int
    requires n <= |b.invoices|
  {
    if n == 0 then 0
    else Owed(b, scope, n - 1, cached)
         + if InScope(b.invoices[n - 1], scope) && (cached ==> Unsettled(b.invoices[n - 1]))
           then Max(0, Net(b.invoices[n - 1]) - PaidOn(b.payments, n - 1)) else 0
  }

  /** What has really been collected: the smaller of net and paid, invoice by invoice. */
  function Collected(b: Books, scope: Scope, n: nat): int
    requires n <= |b.invoices|
  {
    if n == 0 then 0
    else Collected(b, scope, n - 1)
         + if InScope(b.invoices[n - 1], scope) then Min(Net(b.invoices[n - 1]), PaidOn(b.payments, n - 1)) else 0
  }

  lemma {:induction false} SumsAgree(b: Books, scope: Scope, n: nat)
    requires Sound(b) && n <= |b.invoices|
    ensures Outstanding(b, scope, n) == Owed(b, scope, n, false) == Owed(b, scope, n, true)
    ensures Invoices(b, scope, n, false) - Invoices(b, scope, n, true) - Outstanding(b, scope, n) == Collected(b, scope, n)
  {
    if n > 0 {
      SumsAgree(b, scope, n - 1);
      assert InvoiceSound(b, n - 1);
      PaidAtLeastZero(b, n - 1);
    }
  }

  lemma PaidAtLeastZero(b: Books, k: nat)
    requires Sound(b)
    ensures PaidOn(b.payments, k) >= 0
  {
    forall p | 0 <= p < |b.payments|
      ensures b.payments[p].amount > 0
    {
      assert PaymentSound(b, p);
    }
    PaidNonNegative(b.payments, k);
  }

  /** The reports agree with the ledger and with each other, for every scope: balances
      count max(0, net - paid) over all invoices, `collected` is the sum of
      min(net, paid), and the defaulter rows are exactly the invoices with a positive
      balance and add up to `outstanding`. */
  lemma ReportsAgree(b: Books, scope: Scope, rows: seq<DefaulterRow>)
    requires Reachable(b)
    requires ListsDefaulters(b, scope, 0, rows)
    ensures RevenueSummary(b, scope).outstanding == Owed(b, scope, |b.invoices|, false) == Total(rows)
    ensures RevenueSummary(b, scope).collected == Collected(b, scope, |b.invoices|)
    ensures forall student :: FeeBalance(b, student) == Owed(b, OfStudent(student), |b.invoices|, false)
    ensures forall k: nat :: k < |b.invoices| ==>
              (InScope(b.invoices[k], scope) && Balance(b, k) > 0 <==> DefaulterRow(k, Balance(b, k)) in rows)
  {
    ReachableSound(b);
    SumsAgree(b, scope, |b.invoices|);
    forall student
      ensures FeeBalance(b, student) == Owed(b, OfStudent(student), |b.invoices|, false)
    {
      SumsAgree(b, OfStudent(student), |b.invoices|);
    }
    forall k: nat | k < |b.invoices|
      ensures InScope(b.invoices[k], scope) && Balance(b, k) > 0 <==> DefaulterRow(k, Balance(b, k)) in rows
    {
      assert InvoiceSound(b, k);
    }
  }

  // ---------------------------------------------------- what later steps keep

  /** A payment once recorded keeps its invoice, method, amount and reference; once it
      has left `Pending` it keeps its status and receipt as well. */
  predicate KeptBy(x: Payment, y: Payment) {
    && x.invoice == y.invoice && x.means == y.means && x.amount == y.amount && x.reference == y.reference
    && (x.status != Pending ==> x == y)
  }

  ghost predicate Keeps(b: Books, later: Books) {
    && |b.payments| <= |later.payments|
    && forall p :: 0 <= p < |b.payments| ==> KeptBy(b.payments[p], later.payments[p])
  }

  lemma StepKeeps(b: Books, e: Event)
    ensures Keeps(b, Step(b, e))
  {
  }

  lemma {:induction false} RunKeeps(b: Books, events: seq<Event>)
    ensures Keeps(b, Run(b, events))
    decreases events
  {
    if events != [] {
      var next := Step(b, events[0]);
      StepKeeps(b, events[0]);
      RunKeeps(next, events[1..]);
      forall p | 0 <= p < |b.payments|
        ensures KeptBy(b.payments[p], Run(next, events[1..]).payments[p])
      {
        assert KeptBy(b.payments[p], next.payments[p]) && KeptBy(next.payments[p], Run(next, events[1..]).payments[p]);
      }
    }
  }

  // ------------------------------------------------------ refund conservation

  function PaidOutOf(refunds: seq<Refund>, p: nat): int {
    if refunds == [] then 0
    else
      var r := refunds[|refunds| - 1];
      PaidOutOf(refunds[..|refunds| - 1], p) + if r.payment == p && r.status == PaidOut then r.amount else 0
  }

  function TotalPaidOut(refunds: seq<Refund>): int {
    if refunds == [] then 0
    else
      var r := refunds[|refunds| - 1];
      TotalPaidOut(refunds[..|refunds| - 1]) + if r.status == PaidOut then r.amount else 0
  }

  function TotalConfirmed(payments: seq<Payment>): int {
    if payments == [] then 0
    else
      var p := payments[|payments| - 1];
      TotalConfirmed(payments[..|payments| - 1]) + if p.status == Confirmed then p.amount else 0
  }

  function PaidOutBelow(refunds: seq<Refund>, n: nat): int {
    if n == 0 then 0 else PaidOutBelow(refunds, n - 1) + PaidOutOf(refunds, n - 1)
  }

  lemma {:induction false} PaidOutBelowExtend(refunds: seq<Refund>, n: nat)
    requires refunds != []
    ensures var r := refunds[|refunds| - 1];
            PaidOutBelow(refunds, n) == PaidOutBelow(refunds[..|refunds| - 1], n)
                                        + if r.payment < n && r.status == PaidOut then r.amount else 0
  {
    if n > 0 {
      PaidOutBelowExtend(refunds, n - 1);
    }
  }

  /** Every refund paid out belongs to one payment, so the two ways of adding agree. */
  lemma {:induction false} PaidOutGrouped(refunds: seq<Refund>, n: nat)
    requires forall r :: 0 <= r < |refunds| ==> refunds[r].payment < n
    ensures TotalPaidOut(refunds) == PaidOutBelow(refunds, n)
  {
    if refunds == [] {
      NothingPaidOut(n);
    } else {
      PaidOutGrouped(refunds[..|refunds| - 1], n);
      PaidOutBelowExtend(refunds, n);
    }
  }

  lemma {:induction false} NothingPaidOut(n: nat)
    ensures PaidOutBelow([], n) == 0
  {
    if n > 0 {
      NothingPaidOut(n - 1);
    }
  }

  lemma {:induction false} PaidOutWithinClaim(refunds: seq<Refund>, p: nat)
    requires forall r :: 0 <= r < |refunds| ==> refunds[r].amount > 0
    ensures 0 <= PaidOutOf(refunds, p) <= Claimed(refunds, p)
    ensures (forall r :: 0 <= r < |refunds| ==> refunds[r].payment != p) ==> PaidOutOf(refunds, p) == 0
  {
    if refunds != [] {
      PaidOutWithinClaim(refunds[..|refunds| - 1], p);
    }
  }

  lemma {:induction false} PaidOutWithinConfirmed(b: Books, n: nat)
    requires Sound(b) && n <= |b.payments|
    ensures PaidOutBelow(b.refunds, n) <= TotalConfirmed(b.payments[..n])
  {
    if n > 0 {
      PaidOutWithinConfirmed(b, n - 1);
      assert b.payments[..n][..n - 1] == b.payments[..n - 1];
      assert PaymentSound(b, n - 1);
      forall r | 0 <= r < |b.refunds|
        ensures b.refunds[r].amount > 0
        ensures b.payments[n - 1].status != Confirmed ==> b.refunds[r].payment != n - 1
      {
        assert RefundSound(b, r);
      }
      PaidOutWithinClaim(b.refunds, n - 1);
    }
  }

  /** In every reachable state: non-rejected refunds never exceed their payment, refunds
      exist only on confirmed payments, and what was paid out never exceeds what was
      confirmed. */
  lemma RefundsConserved(b: Books)
    requires Reachable(b)
    ensures forall p :: 0 <= p < |b.payments| ==> Claimed(b.refunds, p) <= b.payments[p].amount
    ensures forall r :: 0 <= r < |b.refunds| ==>
              b.refunds[r].payment < |b.payments| && b.payments[b.refunds[r].payment].status == Confirmed
    ensures TotalPaidOut(b.refunds) <= TotalConfirmed(b.payments)
  {
    ReachableSound(b);
    forall p | 0 <= p < |b.payments|
      ensures Claimed(b.refunds, p) <= b.payments[p].amount
    {
      assert PaymentSound(b, p);
    }
    forall r | 0 <= r < |b.refunds|
      ensures b.refunds[r].payment < |b.payments| && b.payments[b.refunds[r].payment].status == Confirmed
    {
      assert RefundSound(b, r);
    }
    PaidOutGrouped(b.refunds, |b.payments|);
    PaidOutWithinConfirmed(b, |b.payments|);
    assert b.payments[..|b.payments|] == b.payments;
  }

  // -------------------------------------------------------- offline payments

  /** The handler has dealt with a payload: it accepted it, or held it as a conflict. */
  predicate Processed(o: Outcome) { o.Created? || o.Found? || o.Conflict? }

  lemma ReferenceStays(b: Books, later: Books, reference: string)
    requires Keeps(b, later) && ReferenceIndex(b.payments, reference) < |b.payments|
    ensures ReferenceIndex(later.payments, reference) == ReferenceIndex(b.payments, reference)
  {
  }

  /** First write wins: once a payload has been processed, replaying it at any later
      point changes nothing and gives the same answer, whatever happened in between. */
  lemma {:induction false} ReplayChangesNothing(b: Books, payload: Payload, between: seq<Event>)
    requires Processed(OfflineVerdict(b, payload))
    ensures var first := OfflineVerdict(b, payload);
            var later := Run(Step(b, OfflinePayment(payload)), between);
            && Step(later, OfflinePayment(payload)) == later
            && OfflineVerdict(later, payload) == if first.Conflict? then Conflict else Found(first.key)
  {
    var after := Step(b, OfflinePayment(payload));
    var later := Run(after, between);
    var reference := payload.reference.value;
    RunKeeps(after, between);
    if OfflineVerdict(b, payload).Created? {
      CreatedIsFound(b, payload);
    }
    ReferenceStays(after, later, reference);
    var k := ReferenceIndex(after.payments, reference);
    assert KeptBy(after.payments[k], later.payments[k]);
  }

  lemma CreatedIsFound(b: Books, payload: Payload)
    requires OfflineVerdict(b, payload).Created?
    ensures var after := Step(b, OfflinePayment(payload));
            && ReferenceIndex(after.payments, payload.reference.value) == |b.payments| < |after.payments|
            && after.payments[|b.payments|].amount == payload.amount.value.cents
            && after.payments[|b.payments|].means == payload.means.value
            && after.payments[|b.payments|].invoice == payload.invoice.value
  {
    var after := Step(b, OfflinePayment(payload));
    assert forall i :: 0 <= i < |b.payments| ==> after.payments[i].reference == b.payments[i].reference;
    assert after.payments[|b.payments|].reference == payload.reference.value;
  }

  /** Each reference has at most one payment, and its amount and method never change. */
  lemma OnePaymentPerReference(b: Books, later: seq<Event>, p: nat, q: nat)
    requires Reachable(b) && p < |b.payments| && AllSensible(later)
    requires q < |Run(b, later).payments| && Run(b, later).payments[q].reference == b.payments[p].reference
    ensures p == q && KeptBy(b.payments[p], Run(b, later).payments[p])
  {
    ReachableSound(b);
    RunKeepsSound(b, later);
    RunKeeps(b, later);
    assert KeptBy(b.payments[p], Run(b, later).payments[p]);
  }

  /** An accepted payload's money sits on the invoice it names if and only if the
      reference was not already taken by a payment on another invoice: the handler
      compares amount and method, not the invoice. */
  lemma AcceptedOnNamedInvoice(b: Books, payload: Payload)
    requires var o := OfflineVerdict(b, payload); o.Created? || o.Found?
    ensures var k := ReferenceIndex(b.payments, payload.reference.value);
            var after := Step(b, OfflinePayment(payload));
            var key := OfflineVerdict(b, payload).key;
            && key < |after.payments|
            && (after.payments[key].invoice == payload.invoice.value <==>
                k == |b.payments| || b.payments[k].invoice == payload.invoice.value)
  {
  }

  /** The other half is real: sensible operations lead to books where a payload that names
      invoice 1 is accepted as the payment already recorded on invoice 0. */
  lemma MisfiledReachable(fee: int, amount: int, reference: string) returns (b: Books, payload: Payload)
    requires fee >= 0 && amount > 0 && reference != ""
    ensures Reachable(b) && |b.invoices| == 2 && payload.invoice == Some(1)
    ensures OfflineVerdict(b, payload) == Found(0) && b.payments[0].invoice == 0
  {
    var first, second := GenerateInvoice(1, 1, 1, Some(fee), 0, None), GenerateInvoice(2, 1, 1, Some(fee), 0, None);
    var third := RecordManualPayment(0, Cash, amount, reference);
    var two := TwoInvoices(fee);
    payload := Payload(Some(1), Some(Cash), Some(Cents(amount)), Some(reference));
    b := Step(two, third);
    assert [first, second, third] == [first, second] + [third];
    RunSplits(EmptyBooks, [first, second], [third]);
    assert Run(two, [third]) == Run(b, []) == b by {
      assert [third][1..] == [];
    }
    assert AllSensible([first, second, third]);
    PaidOnFirst(two, amount, reference);
  }

  lemma TwoInvoices(fee: int) returns (two: Books)
    ensures two == Run(EmptyBooks, [GenerateInvoice(1, 1, 1, Some(fee), 0, None), GenerateInvoice(2, 1, 1, Some(fee), 0, None)])
    ensures fee >= 0 ==> two == Books([Invoice(1, 1, 1, fee, 0, Issued), Invoice(2, 1, 1, fee, 0, Issued)], [], [], 0)
  {
    var first, second := GenerateInvoice(1, 1, 1, Some(fee), 0, None), GenerateInvoice(2, 1, 1, Some(fee), 0, None);
    two := Run(EmptyBooks, [first, second]);
    assert [first, second][1..] == [second] && [second][1..] == [];
    var one := Step(EmptyBooks, first);
    assert two == Run(one, [second]) == Run(Step(one, second), []) == Step(one, second);
    if fee >= 0 {
      assert one == Books([Invoice(1, 1, 1, fee, 0, Issued)], [], [], 0);
    }
  }

  lemma PaidOnFirst(b: Books, amount: int, reference: string)
    requires |b.invoices| == 2 && b.payments == [] && reference != ""
    ensures var after := Step(b, RecordManualPayment(0, Cash, amount, reference));
            && |after.invoices| == 2 && |after.payments| == 1 && after.payments[0].invoice == 0
            && OfflineVerdict(after, Payload(Some(1), Some(Cash), Some(Cents(amount)), Some(reference))) == Found(0)
  {
  }

  lemma {:induction false} RunSplits(b: Books, first: seq<Event>, second: seq<Event>)
    ensures Run(b, first + second) == Run(Run(b, first), second)
    decreases first
  {
    if first == [] {
      assert first + second == second;
    } else {
      assert (first + second)[1..] == first[1..] + second;
      RunSplits(Step(b, first[0]), first[1..], second);
    }
  }

  /** And it stays so: a payload accepted as a payment on another invoice never credits
      the invoice it names. It changes no row now, replaying it changes none later, and
      whatever happens in between, its reference never belongs to that invoice. */
  lemma MisfiledForever(b: Books, payload: Payload, between: seq<Event>)
    requires Reachable(b) && AllSensible(between) && OfflineVerdict(b, payload).Found?
    requires b.payments[OfflineVerdict(b, payload).key].invoice != payload.invoice.value
    ensures var later := Run(Step(b, OfflinePayment(payload)), between);
            && Step(b, OfflinePayment(payload)) == b && Step(later, OfflinePayment(payload)) == later
            && forall q :: 0 <= q < |later.payments| && later.payments[q].reference == payload.reference.value ==>
                 later.payments[q].invoice != payload.invoice.value
  {
    var key := OfflineVerdict(b, payload).key;
    ReplayChangesNothing(b, payload, between);
    forall q | 0 <= q < |Run(b, between).payments| && Run(b, between).payments[q].reference == payload.reference.value
      ensures Run(b, between).payments[q].invoice != payload.invoice.value
    {
      OnePaymentPerReference(b, between, key, q);
    }
  }
}
