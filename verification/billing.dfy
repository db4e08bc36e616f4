// Invoices and their payments: generation, payment, dispute, and what the analytics report.

module Billing {
  import opened Text
  import opened BillingPeriod

  datatype Status = Pending | Paid | Overdue | Disputed | Cancelled

  /** Amounts are in paise and the consumption in hundredths of a kWh, as the DECIMAL(10, 2) columns keep them. */
  datatype Invoice = Invoice(id: string, userId: string, meterId: string, region: string, period: Period,
                             consumption: int, baseCost: int, taxAmount: int, totalCost: int, status: Status,
                             paidAt: Option<int>, paymentMethod: Option<string>, paymentReference: Option<string>,
                             notes: Option<string>, isDisputed: bool, disputedAt: Option<int>,
                             disputeReason: Option<string>)

  /** A row of payment_transactions whose status is 'completed'; the service inserts no other. */
  datatype Transaction = Transaction(invoiceId: string, userId: string, amount: int)

  datatype User = User(userId: string, meterId: Option<string>, region: Option<string>)

  datatype State = State(users: seq<User>, invoices: seq<Invoice>, transactions: seq<Transaction>)

  // ---------------------------------------------------------------- cost

  /** What a DECIMAL(10, 2) column keeps of a non-negative amount, in hundredths. */
  function Hundredths(x: real): int {
    (x * 100.0 + 0.5).Floor
  }

  /** A row of tariffs. */
  datatype Tariff = Tariff(region: string, price: real, active: bool, effectiveFrom: int)

  predicate Applies(t: Tariff, region: string, p: Period) {
    t.region == region && t.active && p.start <= t.effectiveFrom <= p.end
  }

  function PriceSum(ts: seq<Tariff>, region: string, p: Period): real {
    if ts == [] then 0.0
    else PriceSum(ts[..|ts| - 1], region, p) + if Applies(ts[|ts| - 1], region, p) then ts[|ts| - 1].price else 0.0
  }

  function PriceCount(ts: seq<Tariff>, region: string, p: Period): nat {
    if ts == [] then 0
    else PriceCount(ts[..|ts| - 1], region, p) + if Applies(ts[|ts| - 1], region, p) then 1 else 0
  }

  /** A month's consumption in kWh, and the average tariff if there was one. */
  datatype Usage = Usage(consumption: real, avgRate: Option<real>)

  /** What the two queries find for month k; without an active tariff the average is NULL. */
  function MonthUsage(rows: seq<Minute>, ts: seq<Tariff>, meterId: string, region: string, k: int, offset: int): Usage {
    var p := PeriodOf(k, offset);
    var n := PriceCount(ts, region, p);
    Usage(Consumption(rows, meterId, k, offset), if n == 0 then None else Some(PriceSum(ts, region, p) / n as real))
  }

  function BaseCost(u: Usage): real {
    u.consumption * (if u.avgRate.Some? then u.avgRate.value else 6.5)
  }

  /** The part of a hundredth that rounding half up drops, after the half is added. */
  function Rest(x: real): (r: real)
    ensures 0.0 <= r < 1.0
  {
    x * 100.0 + 0.5 - Hundredths(x) as real
  }

  /** Each column is rounded by itself: the rests say whether a sum is one below, equal to or one above the rounded
      parts. */
  lemma RoundedSum(x: real, y: real)
    ensures var rests := Rest(x) + Rest(y);
      Hundredths(x + y) == Hundredths(x) + Hundredths(y) + if rests < 0.5 then -1 else if rests < 1.5 then 0 else 1
  {
  }

  /** The total of a new invoice is the sum of its base and tax columns if and only if the rests of base cost and tax,
      so of the base cost alone, lie together in [0.5, 1.5); outside it is one paisa below or above. */
  lemma ColumnsAddUp(id: string, userId: string, meterId: string, region: string, period: Period, u: Usage)
    ensures var v := NewInvoice(id, userId, meterId, region, period, u);
      var rests := Rest(BaseCost(u)) + Rest(BaseCost(u) * 0.18);
      && (v.totalCost == v.baseCost + v.taxAmount <==> 0.5 <= rests < 1.5)
      && (v.totalCost == v.baseCost + v.taxAmount - 1 <==> rests < 0.5)
      && (v.totalCost == v.baseCost + v.taxAmount + 1 <==> 1.5 <= rests)
  {
    RoundedSum(BaseCost(u), BaseCost(u) * 0.18);
  }

  /** Both misses occur: 0.037 and its tax 0.00666 are kept as 4 and 1, their sum 0.04366 as 4;
      0.134 and its tax 0.02412 as 13 and 2, their sum 0.15812 as 16. */
  lemma ColumnsMiss()
    ensures Hundredths(0.037) == 4 && Hundredths(0.037 * 0.18) == 1 && Hundredths(0.037 + 0.037 * 0.18) == 4
    ensures Hundredths(0.134) == 13 && Hundredths(0.134 * 0.18) == 2 && Hundredths(0.134 + 0.134 * 0.18) == 16
  {
  }

  // ---------------------------------------------------------------- the operations

  datatype Outcome =
    | Done | UserNotFound | InvoiceExists | RegionMissing | InvoiceNotFound | AlreadyPaid | PaymentOfCancelled

  predicate Bills(v: Invoice, userId: string, meterId: string, period: Period) {
    v.userId == userId && v.meterId == meterId && v.period == period
  }

  predicate HasInvoice(vs: seq<Invoice>, userId: string, meterId: string, period: Period) {
    exists i :: 0 <= i < |vs| && Bills(vs[i], userId, meterId, period)
  }

  /** The position of the first row of the user, or the length of the table. */
  function UserAt(users: seq<User>, userId: string): (i: nat)
    ensures i <= |users| && (i < |users| ==> users[i].userId == userId)
    ensures forall j :: 0 <= j < i ==> users[j].userId != userId
    decreases |users|
  {
    if users == [] || users[0].userId == userId then 0
    else
      var i := UserAt(users[1..], userId);
      assert forall j :: 0 < j < i + 1 ==> users[j] == users[1..][j - 1];
      i + 1
  }

  function NewInvoice(id: string, userId: string, meterId: string, region: string, period: Period, u: Usage): Invoice {
    var base := BaseCost(u);
    Invoice(id, userId, meterId, region, period, Hundredths(u.consumption), Hundredths(base), Hundredths(base * 0.18),
            Hundredths(base + base * 0.18), Pending, None, None, None, None, false, None, None)
  }

  /** generateMonthlyInvoice; invoices.region is NOT NULL, so a user without a region cannot be billed. */
  function Generate(s: State, userId: string, meterId: string, period: Period, u: Usage, id: string): (State, Outcome) {
    var i := UserAt(s.users, userId);
    if i == |s.users| then (s, UserNotFound)
    else if HasInvoice(s.invoices, userId, meterId, period) then (s, InvoiceExists)
    else if s.users[i].region.None? then (s, RegionMissing)
    else (s.(invoices := s.invoices + [NewInvoice(id, userId, meterId, s.users[i].region.value, period, u)]), Done)
  }

  /** The position of the user's invoice of that id, or the length of the table. */
  function InvoiceAt(vs: seq<Invoice>, id: string, userId: string): (i: nat)
    ensures i <= |vs| && (i < |vs| ==> vs[i].id == id && vs[i].userId == userId)
    ensures forall j :: 0 <= j < i ==> vs[j].id != id || vs[j].userId != userId
    decreases |vs|
  {
    if vs == [] || (vs[0].id == id && vs[0].userId == userId) then 0
    else
      var i := InvoiceAt(vs[1..], id, userId);
      assert forall j :: 0 < j < i + 1 ==> vs[j] == vs[1..][j - 1];
      i + 1
  }

  datatype Payment = Payment(method_: string, reference: Option<string>, paidAt: Option<int>, notes: Option<string>)

  /** `value || null` */
  function OrNull(s: Option<string>): Option<string> {
    if s == Some("") then None else s
  }

  function PaidInvoice(v: Invoice, p: Payment, now: int): Invoice {
    v.(status := Paid, paidAt := Some(if p.paidAt.Some? then p.paidAt.value else now), paymentMethod := Some(p.method_),
       paymentReference := OrNull(p.reference), notes := if OrNull(p.notes).Some? then p.notes else v.notes)
  }

  /** markInvoiceAsPaid */
  function Pay(s: State, id: string, userId: string, p: Payment, now: int): (State, Outcome) {
    var i := InvoiceAt(s.invoices, id, userId);
    if i == |s.invoices| then (s, InvoiceNotFound)
    else if s.invoices[i].status == Paid then (s, AlreadyPaid)
    else if s.invoices[i].status == Cancelled then (s, PaymentOfCancelled)
    else
      (s.(invoices := s.invoices[i := PaidInvoice(s.invoices[i], p, now)],
          transactions := s.transactions + [Transaction(id, userId, s.invoices[i].totalCost)]), Done)
  }

  function DisputedInvoice(v: Invoice, reason: string, now: int): Invoice {
    v.(status := Disputed, isDisputed := true, disputedAt := Some(now), disputeReason := Some(reason))
  }

  /** disputeInvoice: every status but paid can be disputed. */
  function Dispute(s: State, id: string, userId: string, reason: string, now: int): (State, Outcome) {
    var i := InvoiceAt(s.invoices, id, userId);
    if i == |s.invoices| || s.invoices[i].status == Paid then (s, InvoiceNotFound)
    else (s.(invoices := s.invoices[i := DisputedInvoice(s.invoices[i], reason, now)]), Done)
  }

  // ---------------------------------------------------------------- the ledger

  ghost predicate DistinctIds(vs: seq<Invoice>) {
    forall i, j :: 0 <= i < j < |vs| ==> vs[i].id != vs[j].id
  }

  predicate SameBill(v: Invoice, w: Invoice) {
    Bills(v, w.userId, w.meterId, w.period)
  }

  /** At most one invoice per user, meter and period. */
  ghost predicate OnePerPeriod(vs: seq<Invoice>) {
    forall i, j :: 0 <= i < j < |vs| ==> !SameBill(vs[i], vs[j])
  }

  /** The completed transactions of an invoice. */
  function Count(ts: seq<Transaction>, id: string): nat {
    if ts == [] then 0 else Count(ts[..|ts| - 1], id) + if ts[|ts| - 1].invoiceId == id then 1 else 0
  }

  /** The transaction pays this invoice in full, for its user. */
  predicate Pays(t: Transaction, v: Invoice) {
    t.invoiceId == v.id && t.userId == v.userId && t.amount == v.totalCost
  }

  predicate PaysSome(t: Transaction, vs: seq<Invoice>) {
    exists i :: 0 <= i < |vs| && Pays(t, vs[i])
  }

  /** Every transaction pays an invoice in full. */
  ghost predicate Backed(ts: seq<Transaction>, vs: seq<Invoice>) {
    forall k :: 0 <= k < |ts| ==> PaysSome(ts[k], vs)
  }

  predicate SettledOne(ts: seq<Transaction>, v: Invoice) {
    Count(ts, v.id) == if v.status == Paid then 1 else 0
  }

  /** An invoice is paid just when it has exactly one completed transaction. */
  ghost predicate Settled(ts: seq<Transaction>, vs: seq<Invoice>) {
    forall i :: 0 <= i < |vs| ==> SettledOne(ts, vs[i])
  }

  ghost predicate Ledger(s: State) {
    && DistinctIds(s.invoices) && OnePerPeriod(s.invoices)
    && Backed(s.transactions, s.invoices) && Settled(s.transactions, s.invoices)
  }

  lemma EmptyLedger(users: seq<User>)
    ensures Ledger(State(users, [], []))
  {
  }

  lemma {:induction false} NoTransactions(ts: seq<Transaction>, vs: seq<Invoice>, id: string)
    requires Backed(ts, vs) && forall i :: 0 <= i < |vs| ==> vs[i].id != id
    ensures Count(ts, id) == 0
    decreases |ts|
  {
    if ts != [] {
      var before := ts[..|ts| - 1];
      assert PaysSome(ts[|ts| - 1], vs);
      forall k | 0 <= k < |before| ensures PaysSome(before[k], vs) {
        assert PaysSome(ts[k], vs);
      }
      NoTransactions(before, vs, id);
    }
  }

  ghost predicate FreshId(s: State, id: string) {
    forall i :: 0 <= i < |s.invoices| ==> s.invoices[i].id != id
  }

  lemma BackedGrows(ts: seq<Transaction>, vs: seq<Invoice>, v: Invoice)
    requires Backed(ts, vs)
    ensures Backed(ts, vs + [v])
  {
    forall k | 0 <= k < |ts| ensures PaysSome(ts[k], vs + [v]) {
      assert PaysSome(ts[k], vs);
      var i :| 0 <= i < |vs| && Pays(ts[k], vs[i]);
      assert (vs + [v])[i] == vs[i];
    }
  }

  lemma GenerateKeepsLedger(s: State, userId: string, meterId: string, period: Period, u: Usage, id: string)
    requires Ledger(s) && FreshId(s, id)
    ensures Ledger(Generate(s, userId, meterId, period, u, id).0)
  {
    var s' := Generate(s, userId, meterId, period, u, id).0;
    if s' != s {
      var v := s'.invoices[|s.invoices|];
      assert s'.invoices == s.invoices + [v];
      NoTransactions(s.transactions, s.invoices, id);
      BackedGrows(s.transactions, s.invoices, v);
      hide Count;
      forall i | 0 <= i < |s.invoices| ensures !SameBill(s.invoices[i], v) {
        assert !Bills(s.invoices[i], userId, meterId, period);
      }
      forall i | 0 <= i < |s'.invoices| ensures SettledOne(s'.transactions, s'.invoices[i]) {
        assert i < |s.invoices| ==> SettledOne(s.transactions, s.invoices[i]);
      }
    }
  }

  /** Two rows that differ only in payment and dispute fields. */
  predicate SameCharge(v: Invoice, w: Invoice) {
    v.id == w.id && v.userId == w.userId && v.meterId == w.meterId && v.region == w.region && v.period == w.period &&
    v.consumption == w.consumption && v.baseCost == w.baseCost && v.taxAmount == w.taxAmount &&
    v.totalCost == w.totalCost
  }

  lemma BackedUpdate(ts: seq<Transaction>, vs: seq<Invoice>, at: nat, v: Invoice)
    requires Backed(ts, vs) && at < |vs| && SameCharge(vs[at], v)
    ensures Backed(ts, vs[at := v])
  {
    forall k | 0 <= k < |ts| ensures PaysSome(ts[k], vs[at := v]) {
      assert PaysSome(ts[k], vs);
      var i :| 0 <= i < |vs| && Pays(ts[k], vs[i]);
      assert Pays(ts[k], vs[at := v][i]);
    }
  }

  lemma RowsUpdate(vs: seq<Invoice>, at: nat, v: Invoice)
    requires DistinctIds(vs) && OnePerPeriod(vs) && at < |vs| && SameCharge(vs[at], v)
    ensures DistinctIds(vs[at := v]) && OnePerPeriod(vs[at := v])
  {
    var ws := vs[at := v];
    forall i, j | 0 <= i < j < |ws| ensures ws[i].id != ws[j].id && !SameBill(ws[i], ws[j]) {
      assert vs[i].id != vs[j].id && !SameBill(vs[i], vs[j]);
    }
  }

  lemma PayKeepsLedger(s: State, id: string, userId: string, p: Payment, now: int)
    requires Ledger(s)
    ensures Ledger(Pay(s, id, userId, p, now).0)
  {
    var (s', outcome) := Pay(s, id, userId, p, now);
    if outcome == Done {
      var at := InvoiceAt(s.invoices, id, userId);
      var v, t := s'.invoices[at], Transaction(id, userId, s.invoices[at].totalCost);
      RowsUpdate(s.invoices, at, v);
      BackedUpdate(s.transactions, s.invoices, at, v);
      assert Pays(t, s'.invoices[at]);
      assert SettledOne(s.transactions, s.invoices[at]);
      hide Count;
      forall i | 0 <= i < |s'.invoices| ensures SettledOne(s'.transactions, s'.invoices[i]) {
        assert SettledOne(s.transactions, s.invoices[i]);
      }
      forall k | 0 <= k < |s'.transactions| ensures PaysSome(s'.transactions[k], s'.invoices) {
        assert k < |s.transactions| ==> s'.transactions[k] == s.transactions[k];
      }
    }
  }

  lemma DisputeKeepsLedger(s: State, id: string, userId: string, reason: string, now: int)
    requires Ledger(s)
    ensures Ledger(Dispute(s, id, userId, reason, now).0)
  {
    var (s', outcome) := Dispute(s, id, userId, reason, now);
    if outcome == Done {
      var at := InvoiceAt(s.invoices, id, userId);
      RowsUpdate(s.invoices, at, s'.invoices[at]);
      BackedUpdate(s.transactions, s.invoices, at, s'.invoices[at]);
      forall i | 0 <= i < |s'.invoices| ensures SettledOne(s'.transactions, s'.invoices[i]) {
        assert SettledOne(s.transactions, s.invoices[i]);
      }
    }
  }

  // ---------------------------------------------------------------- runs

  datatype Step =
    | GenerateStep(userId: string, meterId: string, year: int, month: int, offset: int, usage: Usage, id: string)
    | PayStep(id: string, userId: string, payment: Payment, now: int)
    | DisputeStep(id: string, userId: string, reason: string, now: int)

  function After(s: State, e: Step): State {
    match e
    case GenerateStep(userId, meterId, year, month, offset, usage, id) =>
      Generate(s, userId, meterId, MonthPeriod(year, month, offset), usage, id).0
    case PayStep(id, userId, payment, now) => Pay(s, id, userId, payment, now).0
    case DisputeStep(id, userId, reason, now) => Dispute(s, id, userId, reason, now).0
  }

  function Run(s: State, steps: seq<Step>): State
    decreases |steps|
  {
    if steps == [] then s else After(Run(s, steps[..|steps| - 1]), steps[|steps| - 1])
  }

  /** The ids of new invoices are new. */
  ghost predicate FreshAt(s: State, steps: seq<Step>, i: nat)
    requires i < |steps|
  {
    steps[i].GenerateStep? ==> FreshId(Run(s, steps[..i]), steps[i].id)
  }

  ghost predicate FreshIds(s: State, steps: seq<Step>) {
    forall i :: 0 <= i < |steps| ==> FreshAt(s, steps, i)
  }

  lemma FreshPrefix(s: State, steps: seq<Step>)
    requires steps != [] && FreshIds(s, steps)
    ensures FreshIds(s, steps[..|steps| - 1]) && FreshAt(s, steps, |steps| - 1)
  {
    var before := steps[..|steps| - 1];
    forall i | 0 <= i < |before| ensures FreshAt(s, before, i) {
      assert FreshAt(s, steps, i);
      assert before[..i] == steps[..i];
    }
  }

  lemma StepKeepsLedger(s: State, e: Step)
    requires Ledger(s) && (e.GenerateStep? ==> FreshId(s, e.id))
    ensures Ledger(After(s, e))
  {
    hide Ledger, Generate, Pay, Dispute, MonthPeriod, FreshId;
    match e
    case GenerateStep(userId, meterId, year, month, offset, usage, id) =>
      GenerateKeepsLedger(s, userId, meterId, MonthPeriod(year, month, offset), usage, id);
    case PayStep(id, userId, payment, now) => PayKeepsLedger(s, id, userId, payment, now);
    case DisputeStep(id, userId, reason, now) => DisputeKeepsLedger(s, id, userId, reason, now);
  }

  /** Every serial run keeps the ledger: one invoice per user, meter and period, and paid just when paid once, in
      full. */
  lemma {:induction false} RunKeepsLedger(s: State, steps: seq<Step>)
    requires Ledger(s) && FreshIds(s, steps)
    ensures Ledger(Run(s, steps))
    decreases |steps|
  {
    hide Ledger, After, FreshId, FreshIds;
    if steps != [] {
      FreshPrefix(s, steps);
      RunKeepsLedger(s, steps[..|steps| - 1]);
      StepKeepsLedger(Run(s, steps[..|steps| - 1]), steps[|steps| - 1]);
    }
  }

  /** Invoices stay where they are, keep their charge, and a paid one never changes again. */
  predicate KeepsRow(s: State, s': State, i: nat)
    requires i < |s.invoices|
  {
    && |s.invoices| <= |s'.invoices| && SameCharge(s.invoices[i], s'.invoices[i])
    && (s.invoices[i].status == Paid ==> s'.invoices[i] == s.invoices[i])
  }

  lemma StepKeepsRow(s: State, e: Step, i: nat)
    requires i < |s.invoices|
    ensures KeepsRow(s, After(s, e), i)
  {
    hide HasInvoice, MonthPeriod;
  }

  lemma {:induction false} PaidIsAbsorbing(s: State, steps: seq<Step>, i: nat)
    requires i < |s.invoices|
    ensures KeepsRow(s, Run(s, steps), i)
    decreases |steps|
  {
    hide After;
    if steps != [] {
      PaidIsAbsorbing(s, steps[..|steps| - 1], i);
      StepKeepsRow(Run(s, steps[..|steps| - 1]), steps[|steps| - 1], i);
    }
  }

  // ---------------------------------------------------------------- cancelled rows

  predicate Disputes(e: Step, v: Invoice) {
    e.DisputeStep? && e.id == v.id && e.userId == v.userId
  }

  predicate PaysFor(e: Step, v: Invoice) {
    e.PayStep? && e.id == v.id && e.userId == v.userId
  }

  ghost predicate EverDisputed(steps: seq<Step>, v: Invoice) {
    exists k :: 0 <= k < |steps| && Disputes(steps[k], v)
  }

  ghost predicate PaidAfterDispute(steps: seq<Step>, v: Invoice) {
    exists j, k :: 0 <= j < k < |steps| && Disputes(steps[j], v) && PaysFor(steps[k], v)
  }

  lemma DisputedLast(steps: seq<Step>, v: Invoice)
    requires steps != []
    ensures var before := steps[..|steps| - 1];
      EverDisputed(steps, v) <==> EverDisputed(before, v) || Disputes(steps[|steps| - 1], v)
  {
    var before := steps[..|steps| - 1];
    if EverDisputed(before, v) {
      var k :| 0 <= k < |before| && Disputes(before[k], v);
      assert Disputes(steps[k], v);
    }
    if k :| 0 <= k < |before| && Disputes(steps[k], v) {
      assert Disputes(before[k], v);
    }
  }

  lemma PaidLast(steps: seq<Step>, v: Invoice)
    requires steps != []
    ensures var before := steps[..|steps| - 1];
      PaidAfterDispute(steps, v) <==>
        PaidAfterDispute(before, v) || (EverDisputed(before, v) && PaysFor(steps[|steps| - 1], v))
  {
    var n := |steps| - 1;
    var before := steps[..n];
    if PaidAfterDispute(before, v) {
      var j, k :| 0 <= j < k < |before| && Disputes(before[j], v) && PaysFor(before[k], v);
      assert Disputes(steps[j], v) && PaysFor(steps[k], v);
    } else if EverDisputed(before, v) && PaysFor(steps[n], v) {
      var j :| 0 <= j < |before| && Disputes(before[j], v);
      assert Disputes(steps[j], v);
    }
    if PaidAfterDispute(steps, v) {
      var j, k :| 0 <= j < k < |steps| && Disputes(steps[j], v) && PaysFor(steps[k], v);
      assert Disputes(before[j], v) && (k < n ==> PaysFor(before[k], v));
    }
  }

  lemma StepMovesRow(s: State, e: Step, i: nat)
    requires i < |s.invoices| && InvoiceAt(s.invoices, s.invoices[i].id, s.invoices[i].userId) == i
    ensures i < |After(s, e).invoices|
    ensures var v, w := s.invoices[i], After(s, e).invoices[i];
      && (v.status == Cancelled ==> if Disputes(e, v) then w.status == Disputed else w == v)
      && (v.status == Disputed ==> w.status == if PaysFor(e, v) then Paid else Disputed)
  {
    hide HasInvoice, MonthPeriod;
  }

  lemma FoundThere(s: State, s': State, i: nat)
    requires i < |s.invoices| && DistinctIds(s.invoices) && forall j :: 0 <= j <= i ==> KeepsRow(s, s', j)
    ensures InvoiceAt(s'.invoices, s.invoices[i].id, s.invoices[i].userId) == i
  {
    assert KeepsRow(s, s', i);
    forall j | 0 <= j < i ensures s'.invoices[j].id != s.invoices[i].id {
      assert KeepsRow(s, s', j) && s.invoices[j].id != s.invoices[i].id;
    }
  }

  lemma NothingHappens(v: Invoice)
    ensures !EverDisputed([], v) && !PaidAfterDispute([], v)
  {
  }

  lemma RowIdentity(s: State, s': State, i: nat)
    requires i < |s.invoices| && KeepsRow(s, s', i)
    ensures i < |s'.invoices| && s'.invoices[i].id == s.invoices[i].id && s'.invoices[i].userId == s.invoices[i].userId
    ensures s.invoices[i].status == Paid ==> s'.invoices[i].status == Paid
  {
  }

  /** What becomes of a cancelled invoice over any run: untouched if and only if its owner never disputes it, and paid
      in the end if and only if a payment comes after a dispute. No operation cancels an invoice (nor does any other
      statement of the repository): such rows come from outside the service. */
  lemma {:induction false} CancelledFate(s: State, steps: seq<Step>, i: nat)
    requires i < |s.invoices| && s.invoices[i].status == Cancelled && DistinctIds(s.invoices)
    ensures i < |Run(s, steps).invoices|
    ensures var v, w := s.invoices[i], Run(s, steps).invoices[i];
      && (w.status == Cancelled <==> !EverDisputed(steps, v)) && (w.status == Cancelled ==> w == v)
      && (w.status == Paid <==> PaidAfterDispute(steps, v))
      && w.status in {Cancelled, Disputed, Paid}
    decreases |steps|
  {
    hide After, KeepsRow, EverDisputed, PaidAfterDispute;
    var v := s.invoices[i];
    if steps == [] {
      assert !EverDisputed(steps, v) && !PaidAfterDispute(steps, v) by {
        NothingHappens(v);
      }
    } else {
      var n := |steps| - 1;
      var r := Run(s, steps[..n]);
      CancelledFate(s, steps[..n], i);
      forall j | 0 <= j <= i ensures KeepsRow(s, r, j) {
        PaidIsAbsorbing(s, steps[..n], j);
      }
      FoundThere(s, r, i);
      RowIdentity(s, r, i);
      StepMovesRow(r, steps[n], i);
      StepKeepsRow(r, steps[n], i);
      RowIdentity(r, After(r, steps[n]), i);
      DisputedLast(steps, v);
      PaidLast(steps, v);
    }
  }
}
