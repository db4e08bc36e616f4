// The billing service: each call against the ledger it keeps.

module BillingService {
  import opened Text
  import opened BillingPeriod
  import opened Billing
  import opened BillingCost
  import opened BillingLedger

  /** The aggregate columns of the analytics; the sums are NULL when no row matches. */
  datatype Analytics = Analytics(total: nat, paid: nat, pending: nat, overdue: nat, disputed: nat,
                                 totalRevenue: Option<int>, collectedRevenue: Option<int>,
                                 outstandingRevenue: Option<int>)

  /** The revenue reported as neither collected nor outstanding. */
  predicate Accounted(a: Analytics, rest: int) {
    && a.totalRevenue.Some? && a.collectedRevenue.Some? && a.outstandingRevenue.Some?
    && a.totalRevenue.value == a.collectedRevenue.value + a.outstandingRevenue.value + rest
  }

  class BillingService {
    var users: seq<User>
    var invoices: seq<Invoice>
    var transactions: seq<Transaction>

    ghost function Contents(): State
      reads this
    {
      State(users, invoices, transactions)
    }

    ghost predicate Valid()
      reads this
    {
      DistinctUsers(users) && Ledger(Contents())
    }

    constructor (users: seq<User>)
      requires DistinctUsers(users)
      ensures Valid() && Contents() == State(users, [], [])
    {
      this.users := users;
      invoices, transactions := [], [];
      new;
      EmptyLedger(users);
    }

    /** markInvoiceAsPaid */
    method MarkInvoiceAsPaid(id: string, userId: string, p: Payment, now: int) returns (outcome: Outcome)
      requires Valid()
      modifies this
      ensures Valid() && (Contents(), outcome) == Pay(old(Contents()), id, userId, p, now)
    {
      hide Ledger;
      PayKeepsLedger(Contents(), id, userId, p, now);
      var i := InvoiceAt(invoices, id, userId);
      if i == |invoices| {
        return InvoiceNotFound;
      }
      if invoices[i].status == Paid {
        return AlreadyPaid;
      }
      if invoices[i].status == Cancelled {
        return PaymentOfCancelled;
      }
      transactions := transactions + [Transaction(id, userId, invoices[i].totalCost)];
      invoices := invoices[i := PaidInvoice(invoices[i], p, now)];
      outcome := Done;
    }

    /** disputeInvoice */
    method DisputeInvoice(id: string, userId: string, reason: string, now: int) returns (outcome: Outcome)
      requires Valid()
      modifies this
      ensures Valid() && (Contents(), outcome) == Dispute(old(Contents()), id, userId, reason, now)
    {
      hide Ledger;
      DisputeKeepsLedger(Contents(), id, userId, reason, now);
      var i := InvoiceAt(invoices, id, userId);
      if i == |invoices| || invoices[i].status == Paid {
        return InvoiceNotFound;
      }
      invoices := invoices[i := DisputedInvoice(invoices[i], reason, now)];
      outcome := Done;
    }

    method InvoiceExistsFor(userId: string, meterId: string, period: Period) returns (found: bool)
      ensures found <==> HasInvoice(invoices, userId, meterId, period)
    {
      for i := 0 to |invoices|
        invariant forall k :: 0 <= k < i ==> !Bills(invoices[k], userId, meterId, period)
      {
        if Bills(invoices[i], userId, meterId, period) {
          return true;
        }
      }
      return false;
    }

    /** generateMonthlyInvoice, from the aggregates and tariffs at hand; the id of a new row comes from the database. */
    method GenerateMonthlyInvoice(userId: string, meterId: string, year: int, month: int, offset: int,
                                  rows: seq<Minute>, tariffs: seq<Tariff>, id: string)
      returns (outcome: Outcome)
      requires Valid() && FreshId(Contents(), id)
      modifies this
      ensures Valid()
      ensures var u :=
        MonthUsage(rows, tariffs, meterId, RegionOf(old(users), userId), MonthIndex(year, month), offset);
        (Contents(), outcome) == Generate(old(Contents()), userId, meterId, MonthPeriod(year, month, offset), u, id)
      ensures outcome == Done ==>
        var n, region := |old(invoices)|, RegionOf(old(users), userId);
        && |invoices| == n + 1 && invoices[..n] == old(invoices)
        && invoices[n].id == id && invoices[n].userId == userId && invoices[n].meterId == meterId
        && Issued(invoices[n], region, MonthIndex(year, month), offset)
        && Charges(invoices[n], rows, tariffs, MonthIndex(year, month), offset)
    {
      hide Ledger, PeriodOf, HasInvoice, MonthUsage, Issued, Charges;
      var period := MonthPeriod(year, month, offset);
      ghost var usage := MonthUsage(rows, tariffs, meterId, RegionOf(users, userId), MonthIndex(year, month), offset);
      GenerateKeepsLedger(Contents(), userId, meterId, period, usage, id);
      var i := UserAt(users, userId);
      if i == |users| {
        return UserNotFound;
      }
      var found := InvoiceExistsFor(userId, meterId, period);
      if found {
        return InvoiceExists;
      }
      if users[i].region.None? {
        return RegionMissing;
      }
      var region := users[i].region.value;
      var u := MonthUsage(rows, tariffs, meterId, region, MonthIndex(year, month), offset);
      NewInvoiceCharges(id, userId, meterId, region, rows, tariffs, MonthIndex(year, month), offset);
      invoices := invoices + [NewInvoice(id, userId, meterId, region, period, u)];
      outcome := Done;
    }

    method UsersOfRegion(region: string) returns (bs: seq<Billee>)
      ensures bs == Billees(users, region)
    {
      bs := [];
      for i := 0 to |users|
        invariant bs == Billees(users[..i], region)
      {
        assert users[..i + 1][..i] == users[..i];
        if users[i].region == Some(region) && users[i].meterId.Some? {
          bs := bs + [Billee(users[i].userId, users[i].meterId.value)];
        }
      }
      assert users[..|users|] == users;
    }

    /** generateMonthlyInvoicesForRegion */
    method GenerateMonthlyInvoicesForRegion(region: string, year: int, month: int, offset: int,
                                            rows: seq<Minute>, tariffs: seq<Tariff>, ids: seq<string>)
      returns (success: nat, failed: nat)
      requires Valid() && |ids| == |Billees(users, region)| && NewIds(Contents(), ids)
      modifies this
      ensures Valid() && success + failed == |ids|
      ensures var bs := Billees(old(users), region);
        var usages := Usages(rows, tariffs, bs, region, MonthIndex(year, month), offset);
        (Contents(), success) == BillAll(old(Contents()), bs, MonthPeriod(year, month, offset), usages, ids)
      ensures |invoices| == |old(invoices)| + success && invoices[..|old(invoices)|] == old(invoices)
      ensures AllCharged(invoices, |old(invoices)|, region, rows, tariffs, MonthIndex(year, month), offset)
    {
      hide Ledger, MonthPeriod, MonthIndex, MonthUsage, Generate, FreshId, DistinctUsers, Billees, Billable, RegionOf,
           Issued, Charges, AllCharged, BillAll;
      success, failed := 0, 0;
      var bs := UsersOfRegion(region);
      ghost var before, period := Contents(), MonthPeriod(year, month, offset);
      ghost var usages := Usages(rows, tariffs, bs, region, MonthIndex(year, month), offset);
      assert users[..|users|] == users;
      BilleesAreBillable(users, |users|, region);
      NoneBilled(before, period, region, rows, tariffs, MonthIndex(year, month), offset);
      assert bs[..0] == [] && usages[..0] == [] && ids[..0] == [];
      for k := 0 to |bs|
        invariant Valid() && users == before.users && success + failed == k
        invariant (Contents(), success) == BillAll(before, bs[..k], period, usages[..k], ids[..k])
        invariant |invoices| == |before.invoices| + success && invoices[..|before.invoices|] == before.invoices
        invariant AllCharged(invoices, |before.invoices|, region, rows, tariffs, MonthIndex(year, month), offset)
      {
        BillAllKeepsLedger(before, bs[..k], period, usages[..k], ids[..k], ids[k]);
        BillNext(before, bs, period, usages, ids, k);
        OutcomeOrNothing(Contents(), bs[k].userId, bs[k].meterId, period, usages[k], ids[k]);
        ghost var vs := invoices;
        GenerateKeepsUsers(Contents(), bs[k].userId, bs[k].meterId, period, usages[k], ids[k]);
        var outcome := GenerateMonthlyInvoice(bs[k].userId, bs[k].meterId, year, month, offset, rows, tariffs, ids[k]);
        if outcome == Done {
          AllChargedGrows(vs, invoices, |before.invoices|, region, rows, tariffs, MonthIndex(year, month), offset);
          success := success + 1;
        } else {
          failed := failed + 1;
        }
      }
      assert bs[..|bs|] == bs && usages[..|bs|] == usages && ids[..|bs|] == ids;
    }

    /** getInvoiceAnalytics: the counts and sums of one pass over the matching rows. */
    method GetInvoiceAnalytics(f: Filter) returns (a: Analytics)
      requires Valid()
      ensures a.total == Number(invoices, f, ALL) && a.disputed == Number(invoices, f, {Disputed})
      ensures a.paid == Number(invoices, f, {Paid}) && a.pending == Number(invoices, f, {Pending})
      ensures a.overdue == Number(invoices, f, {Overdue})
      ensures a.total == a.paid + a.pending + a.overdue + a.disputed + Number(invoices, f, {Cancelled})
      ensures a.total == 0 ==> a.collectedRevenue.None? && Received(transactions, invoices, f) == 0
      ensures a.total > 0 ==> a.collectedRevenue == Some(Received(transactions, invoices, f))
      ensures a.total > 0 ==> Accounted(a, Revenue(invoices, f, {Disputed, Cancelled}))
      ensures a.total == 0 ==> a.totalRevenue.None? && a.outstandingRevenue.None?
      ensures a.total > 0 ==> a.outstandingRevenue == Some(Revenue(invoices, f, {Pending, Overdue}))
    {
      hide Ledger, Matches;
      var total, paid, pending, overdue, disputed := 0, 0, 0, 0, 0;
      var revenue, collected, outstanding := 0, 0, 0;
      for i := 0 to |invoices|
        invariant total == Number(invoices[..i], f, ALL) && paid == Number(invoices[..i], f, {Paid})
        invariant pending == Number(invoices[..i], f, {Pending}) && overdue == Number(invoices[..i], f, {Overdue})
        invariant disputed == Number(invoices[..i], f, {Disputed})
        invariant revenue == Revenue(invoices[..i], f, ALL) && collected == Revenue(invoices[..i], f, {Paid})
        invariant outstanding == Revenue(invoices[..i], f, {Pending, Overdue})
      {
        var v := invoices[i];
        assert invoices[..i + 1][..i] == invoices[..i];
        if Matches(f, v) {
          total, revenue := total + 1, revenue + v.totalCost;
          match v.status
          case Paid => paid, collected := paid + 1, collected + v.totalCost;
          case Pending => pending, outstanding := pending + 1, outstanding + v.totalCost;
          case Overdue => overdue, outstanding := overdue + 1, outstanding + v.totalCost;
          case Disputed => disputed := disputed + 1;
          case Cancelled =>
        }
      }
      assert invoices[..|invoices|] == invoices;
      hide Number, Revenue;
      RevenueGap(invoices, f);
      PaymentsAreRevenue(Contents(), f);
      NoneNoRevenue(invoices, f, {Paid});
      a := Analytics(total, paid, pending, overdue, disputed,
                     if total > 0 then Some(revenue) else None,
                     if total > 0 then Some(collected) else None,
                     if total > 0 then Some(outstanding) else None);
    }
  }

  lemma {:induction false} NoneNoRevenue(vs: seq<Invoice>, f: Filter, statuses: set<Status>)
    ensures Number(vs, f, statuses) == 0 ==> Revenue(vs, f, statuses) == 0
    decreases |vs|
  {
    hide Matches;
    if vs != [] {
      NoneNoRevenue(vs[..|vs| - 1], f, statuses);
    }
  }

  lemma GenerateKeepsUsers(s: State, userId: string, meterId: string, period: Period, u: Usage, id: string)
    ensures Generate(s, userId, meterId, period, u, id).0.users == s.users
  {
  }

  lemma NoneBilled(s: State, period: Period, region: string, rows: seq<Minute>, ts: seq<Tariff>, k: int, offset: int)
    ensures BillAll(s, [], period, [], []) == (s, 0)
    ensures AllCharged(s.invoices, |s.invoices|, region, rows, ts, k, offset)
  {
  }

  lemma OutcomeOrNothing(s: State, userId: string, meterId: string, period: Period, u: Usage, id: string)
    ensures var (s', outcome) := Generate(s, userId, meterId, period, u, id); outcome != Done ==> s' == s
  {
  }

  lemma AllChargedGrows(vs: seq<Invoice>, ws: seq<Invoice>, n: nat, region: string, rows: seq<Minute>,
                        ts: seq<Tariff>, k: int, offset: int)
    requires n <= |vs| && |ws| == |vs| + 1 && ws[..|vs|] == vs && AllCharged(vs, n, region, rows, ts, k, offset)
    requires Issued(ws[|vs|], region, k, offset) && Charges(ws[|vs|], rows, ts, k, offset)
    ensures AllCharged(ws, n, region, rows, ts, k, offset) && ws[..n] == vs[..n]
  {
    hide Issued, Charges;
    forall i | n <= i < |ws| ensures Issued(ws[i], region, k, offset) && Charges(ws[i], rows, ts, k, offset) {
      assert i < |vs| ==> ws[i] == vs[i];
    }
  }

  lemma BillNext(s: State, bs: seq<Billee>, period: Period, usages: seq<Usage>, ids: seq<string>, k: nat)
    requires |usages| == |bs| == |ids| && k < |bs|
    ensures var (before, created) := BillAll(s, bs[..k], period, usages[..k], ids[..k]);
      var (after, outcome) := Generate(before, bs[k].userId, bs[k].meterId, period, usages[k], ids[k]);
      BillAll(s, bs[..k + 1], period, usages[..k + 1], ids[..k + 1]) ==
        (after, if outcome == Done then created + 1 else created)
  {
    hide Generate;
    assert bs[..k + 1][..k] == bs[..k] && usages[..k + 1][..k] == usages[..k] && ids[..k + 1][..k] == ids[..k];
  }
}
