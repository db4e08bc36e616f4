// The ledger as a whole: collected revenue against payments, and the generation of a region's invoices.

module BillingLedger {
  import opened Text
  import opened BillingPeriod
  import opened Billing

  // ---------------------------------------------------------------- revenue

  /** The filter of the analytics: a region ("" filters nothing) and bounds on the billing period. */
  datatype Filter = Filter(region: Option<string>, startDate: Option<int>, endDate: Option<int>)

  predicate Matches(f: Filter, v: Invoice) {
    && (f.region.Some? && f.region.value != "" ==> v.region == f.region.value)
    && (f.startDate.Some? ==> f.startDate.value <= v.period.start)
    && (f.endDate.Some? ==> v.period.end <= f.endDate.value)
  }

  /** SUM(CASE WHEN status IN (…) THEN total_cost ELSE 0 END) over the matching rows, 0 for no rows. */
  function Revenue(vs: seq<Invoice>, f: Filter, statuses: set<Status>): int {
    if vs == [] then 0
    else
      var v := vs[|vs| - 1];
      Revenue(vs[..|vs| - 1], f, statuses) + if Matches(f, v) && v.status in statuses then v.totalCost else 0
  }

  /** COUNT(*) FILTER (WHERE status IN (…)) over the matching rows. */
  function Number(vs: seq<Invoice>, f: Filter, statuses: set<Status>): nat {
    if vs == [] then 0
    else
      var v := vs[|vs| - 1];
      Number(vs[..|vs| - 1], f, statuses) + if Matches(f, v) && v.status in statuses then 1 else 0
  }

  const ALL := {Pending, Paid, Overdue, Disputed, Cancelled}

  lemma {:induction false} StatusesSplit(vs: seq<Invoice>, f: Filter, a: set<Status>, b: set<Status>)
    requires a !! b
    ensures Revenue(vs, f, a + b) == Revenue(vs, f, a) + Revenue(vs, f, b)
    ensures Number(vs, f, a + b) == Number(vs, f, a) + Number(vs, f, b)
    decreases |vs|
  {
    hide Matches;
    if vs != [] {
      StatusesSplit(vs[..|vs| - 1], f, a, b);
    }
  }

  /** Collected and outstanding revenue leave out exactly the disputed and cancelled invoices of the total. */
  lemma RevenueGap(vs: seq<Invoice>, f: Filter)
    ensures Revenue(vs, f, ALL) ==
      Revenue(vs, f, {Paid}) + Revenue(vs, f, {Pending, Overdue}) + Revenue(vs, f, {Disputed, Cancelled})
    ensures Number(vs, f, ALL) == Number(vs, f, {Paid}) + Number(vs, f, {Pending}) + Number(vs, f, {Overdue}) +
      Number(vs, f, {Disputed}) + Number(vs, f, {Cancelled})
  {
    hide Revenue, Number;
    StatusesSplit(vs, f, {Paid}, {Pending, Overdue});
    StatusesSplit(vs, f, {Paid} + {Pending, Overdue}, {Disputed, Cancelled});
    assert ALL == {Paid} + {Pending, Overdue} + {Disputed, Cancelled};
    StatusesSplit(vs, f, {Pending}, {Overdue});
    assert {Pending} + {Overdue} == {Pending, Overdue};
    StatusesSplit(vs, f, {Disputed}, {Cancelled});
    assert {Disputed} + {Cancelled} == {Disputed, Cancelled};
  }

  predicate PaysMatching(t: Transaction, vs: seq<Invoice>, f: Filter) {
    exists i :: 0 <= i < |vs| && vs[i].id == t.invoiceId && Matches(f, vs[i])
  }

  /** The completed payments of the matching invoices. */
  function Received(ts: seq<Transaction>, vs: seq<Invoice>, f: Filter): int {
    if ts == [] then 0
    else
      var t := ts[|ts| - 1];
      Received(ts[..|ts| - 1], vs, f) + if PaysMatching(t, vs, f) then t.amount else 0
  }

  /** The payments of one invoice. */
  function Amount(ts: seq<Transaction>, id: string): int {
    if ts == [] then 0 else Amount(ts[..|ts| - 1], id) + if ts[|ts| - 1].invoiceId == id then ts[|ts| - 1].amount else 0
  }

  ghost predicate InFull(ts: seq<Transaction>, v: Invoice) {
    forall k :: 0 <= k < |ts| && ts[k].invoiceId == v.id ==> ts[k].amount == v.totalCost
  }

  lemma {:induction false} AmountIsCount(ts: seq<Transaction>, v: Invoice)
    requires InFull(ts, v)
    ensures Amount(ts, v.id) == Count(ts, v.id) * v.totalCost
    decreases |ts|
  {
    if ts != [] {
      AmountIsCount(ts[..|ts| - 1], v);
    }
  }

  lemma {:induction false} ReceivedSnoc(ts: seq<Transaction>, vs: seq<Invoice>, v: Invoice, f: Filter)
    requires forall i :: 0 <= i < |vs| ==> vs[i].id != v.id
    ensures Received(ts, vs + [v], f) == Received(ts, vs, f) + if Matches(f, v) then Amount(ts, v.id) else 0
    decreases |ts|
  {
    if ts != [] {
      ReceivedSnoc(ts[..|ts| - 1], vs, v, f);
      PaysSnoc(ts[|ts| - 1], vs, v, f);
    }
  }

  lemma PaysSnoc(t: Transaction, vs: seq<Invoice>, v: Invoice, f: Filter)
    requires forall i :: 0 <= i < |vs| ==> vs[i].id != v.id
    ensures PaysMatching(t, vs + [v], f) <==> PaysMatching(t, vs, f) || (t.invoiceId == v.id && Matches(f, v))
    ensures t.invoiceId == v.id ==> !PaysMatching(t, vs, f)
  {
    hide Matches;
    var ws := vs + [v];
    if PaysMatching(t, vs, f) {
      var i :| 0 <= i < |vs| && vs[i].id == t.invoiceId && Matches(f, vs[i]);
      assert ws[i] == vs[i];
    }
    if t.invoiceId == v.id && Matches(f, v) {
      assert ws[|vs|] == v;
    }
  }

  lemma {:induction false} ReceivedNothing(ts: seq<Transaction>, f: Filter)
    ensures Received(ts, [], f) == 0
    decreases |ts|
  {
    if ts != [] {
      ReceivedNothing(ts[..|ts| - 1], f);
    }
  }

  lemma {:induction false} ReceivedIsCollected(ts: seq<Transaction>, vs: seq<Invoice>, f: Filter)
    requires DistinctIds(vs) && Settled(ts, vs) && forall i :: 0 <= i < |vs| ==> InFull(ts, vs[i])
    ensures Received(ts, vs, f) == Revenue(vs, f, {Paid})
    decreases |vs|
  {
    hide Matches;
    if vs == [] {
      ReceivedNothing(ts, f);
    } else {
      var before, v := vs[..|vs| - 1], vs[|vs| - 1];
      assert vs == before + [v];
      forall i | 0 <= i < |before| ensures SettledOne(ts, before[i]) {
        assert SettledOne(ts, vs[i]);
      }
      ReceivedIsCollected(ts, before, f);
      ReceivedSnoc(ts, before, v, f);
      AmountIsCount(ts, v);
      assert SettledOne(ts, v);
    }
  }

  /** Over every ledger, and for every filter, the payments received are the collected revenue. */
  lemma PaymentsAreRevenue(s: State, f: Filter)
    requires Ledger(s)
    ensures Received(s.transactions, s.invoices, f) == Revenue(s.invoices, f, {Paid})
  {
    forall i | 0 <= i < |s.invoices| ensures InFull(s.transactions, s.invoices[i]) {
    }
    ReceivedIsCollected(s.transactions, s.invoices, f);
  }

  /** The invoice of a month is in the analytics from one month to another if and only if its month is one of these and
      its region the one asked for, if any. */
  lemma MonthsMatch(region: Option<string>, first: int, last: int, offset: int, v: Invoice, k: int)
    requires v.period == PeriodOf(k, offset)
    ensures var since, till := Some(PeriodOf(first, offset).start), Some(PeriodOf(last, offset).end);
      && (Matches(Filter(region, since, till), v) <==>
            first <= k <= last && (region == None || region == Some("") || region == Some(v.region)))
      && (Matches(Filter(region, since, None), v) <==>
            first <= k && (region == None || region == Some("") || region == Some(v.region)))
      && (Matches(Filter(region, None, till), v) <==>
            k <= last && (region == None || region == Some("") || region == Some(v.region)))
  {
    hide FirstDay;
    FirstDaysInOrder(if first <= k then first else k, if first <= k then k else first);
    FirstDaysInOrder(if k <= last then k + 1 else last + 1, if k <= last then last + 1 else k + 1);
  }

  // ---------------------------------------------------------------- generation for a region

  /** A user of the region with a meter. */
  datatype Billee = Billee(userId: string, meterId: string)

  function Billees(users: seq<User>, region: string): seq<Billee> {
    if users == [] then []
    else
      var u := users[|users| - 1];
      Billees(users[..|users| - 1], region) +
      if u.region == Some(region) && u.meterId.Some? then [Billee(u.userId, u.meterId.value)] else []
  }

  /** Exactly the users of the region that have a meter are billed, each for its own. */
  lemma {:induction false} BilleesMeaning(users: seq<User>, region: string, userId: string, meterId: string)
    ensures Billee(userId, meterId) in Billees(users, region) <==>
      exists i :: 0 <= i < |users| && users[i] == User(userId, Some(meterId), Some(region))
    decreases |users|
  {
    if users != [] {
      var before := users[..|users| - 1];
      BilleesMeaning(before, region, userId, meterId);
      assert forall i :: 0 <= i < |before| ==> before[i] == users[i];
      if Billee(userId, meterId) in Billees(before, region) {
        var i :| 0 <= i < |before| && before[i] == User(userId, Some(meterId), Some(region));
        assert users[i] == User(userId, Some(meterId), Some(region));
      }
    }
  }

  /** user_id is the primary key. */
  ghost predicate DistinctUsers(users: seq<User>) {
    forall i, j :: 0 <= i < j < |users| ==> users[i].userId != users[j].userId
  }

  /** The user's row exists and has a region, so that only an existing invoice can stop the billing. */
  predicate Billable(users: seq<User>, b: Billee) {
    UserAt(users, b.userId) < |users| && users[UserAt(users, b.userId)].region.Some?
  }

  /** The region tariffs are looked up for. */
  function RegionOf(users: seq<User>, userId: string): string {
    var i := UserAt(users, userId);
    if i < |users| && users[i].region.Some? then users[i].region.value else ""
  }

  ghost predicate AllBillable(users: seq<User>, bs: seq<Billee>, region: string) {
    forall k :: 0 <= k < |bs| ==> Billable(users, bs[k]) && RegionOf(users, bs[k].userId) == region
  }

  lemma {:induction false} BilleesAreBillable(users: seq<User>, n: nat, region: string)
    requires DistinctUsers(users) && n <= |users|
    ensures AllBillable(users, Billees(users[..n], region), region)
    decreases n
  {
    if n > 0 {
      assert users[..n][..n - 1] == users[..n - 1];
      BilleesAreBillable(users, n - 1, region);
      assert UserAt(users, users[n - 1].userId) == n - 1;
    } else {
      assert users[..0] == [];
    }
  }

  /** The state and the number of invoices created after billing the users in order. */
  function BillAll(s: State, bs: seq<Billee>, period: Period, usages: seq<Usage>, ids: seq<string>): (r: (State, nat))
    requires |usages| == |bs| == |ids|
    decreases |bs|
  {
    if bs == [] then (s, 0)
    else
      var n := |bs| - 1;
      var (before, created) := BillAll(s, bs[..n], period, usages[..n], ids[..n]);
      var (after, outcome) := Generate(before, bs[n].userId, bs[n].meterId, period, usages[n], ids[n]);
      (after, if outcome == Done then created + 1 else created)
  }

  predicate Covered(s: State, b: Billee, period: Period) {
    HasInvoice(s.invoices, b.userId, b.meterId, period)
  }

  ghost predicate AllCovered(s: State, bs: seq<Billee>, period: Period) {
    forall k :: 0 <= k < |bs| ==> Covered(s, bs[k], period)
  }

  /** An invoice once generated covers its user, meter and period through any later step. */
  lemma CoverStays(s: State, e: Step, b: Billee, period: Period)
    requires Covered(s, b, period)
    ensures Covered(After(s, e), b, period)
  {
    hide MonthPeriod, Generate, Pay, Dispute;
    var i :| 0 <= i < |s.invoices| && Bills(s.invoices[i], b.userId, b.meterId, period);
    StepKeepsRow(s, e, i);
    assert Bills(After(s, e).invoices[i], b.userId, b.meterId, period);
  }

  lemma {:induction false} CoverStaysOverRuns(s: State, steps: seq<Step>, b: Billee, period: Period)
    requires Covered(s, b, period)
    ensures Covered(Run(s, steps), b, period)
    decreases |steps|
  {
    hide After, Covered;
    if steps != [] {
      CoverStaysOverRuns(s, steps[..|steps| - 1], b, period);
      CoverStays(Run(s, steps[..|steps| - 1]), steps[|steps| - 1], b, period);
    }
  }

  lemma GenerateCovers(s: State, b: Billee, period: Period, u: Usage, id: string)
    requires Billable(s.users, b)
    ensures var (s', outcome) := Generate(s, b.userId, b.meterId, period, u, id);
      && Covered(s', b, period) && s'.users == s.users
      && (outcome == Done <==> !Covered(s, b, period))
      && (Covered(s, b, period) ==> s' == s)
      && s.invoices <= s'.invoices && |s'.invoices| == |s.invoices| + if outcome == Done then 1 else 0
  {
    var s' := Generate(s, b.userId, b.meterId, period, u, id).0;
    if !Covered(s, b, period) {
      assert Bills(s'.invoices[|s.invoices|], b.userId, b.meterId, period);
    }
  }

  lemma CoverGrows(s: State, s': State, b: Billee, period: Period)
    requires Covered(s, b, period) && s.invoices <= s'.invoices
    ensures Covered(s', b, period)
  {
    var i :| 0 <= i < |s.invoices| && Bills(s.invoices[i], b.userId, b.meterId, period);
    assert s'.invoices[i] == s.invoices[i];
  }

  /** After billing a list of billable users, all are covered; the table grew by the number created and changed
      nowhere else. */
  lemma {:induction false} BillAllCovers(s: State, bs: seq<Billee>, period: Period, usages: seq<Usage>,
                                         ids: seq<string>)
    requires |usages| == |bs| == |ids| && forall k :: 0 <= k < |bs| ==> Billable(s.users, bs[k])
    ensures var (s', created) := BillAll(s, bs, period, usages, ids);
      && AllCovered(s', bs, period) && s'.users == s.users && s'.transactions == s.transactions
      && s.invoices <= s'.invoices && |s'.invoices| == |s.invoices| + created
    decreases |bs|
  {
    hide Billable, Covered;
    if bs != [] {
      var n := |bs| - 1;
      BillAllCovers(s, bs[..n], period, usages[..n], ids[..n]);
      var before := BillAll(s, bs[..n], period, usages[..n], ids[..n]).0;
      assert Billable(s.users, bs[n]);
      GenerateCovers(before, bs[n], period, usages[n], ids[n]);
      var s' := BillAll(s, bs, period, usages, ids).0;
      forall k | 0 <= k < |bs| ensures Covered(s', bs[k], period) {
        if k < n {
          assert Covered(before, bs[..n][k], period);
          CoverGrows(before, s', bs[k], period);
        }
      }
    }
  }

  /** Billing users who are all covered creates nothing. */
  lemma {:induction false} RebillingCreatesNothing(s: State, bs: seq<Billee>, period: Period,
                                                       usages: seq<Usage>, ids: seq<string>)
    requires |usages| == |bs| == |ids| && AllCovered(s, bs, period)
    ensures BillAll(s, bs, period, usages, ids) == (s, 0)
    decreases |bs|
  {
    if bs != [] {
      var n := |bs| - 1;
      forall k | 0 <= k < n ensures Covered(s, bs[..n][k], period) {
        assert Covered(s, bs[k], period);
      }
      RebillingCreatesNothing(s, bs[..n], period, usages[..n], ids[..n]);
      assert Covered(s, bs[n], period);
    }
  }

  lemma StepKeepsUsers(s: State, e: Step)
    ensures After(s, e).users == s.users
  {
    hide MonthPeriod, HasInvoice;
  }

  lemma {:induction false} RunKeepsUsers(s: State, steps: seq<Step>)
    ensures Run(s, steps).users == s.users
    decreases |steps|
  {
    hide After;
    if steps != [] {
      RunKeepsUsers(s, steps[..|steps| - 1]);
      StepKeepsUsers(Run(s, steps[..|steps| - 1]), steps[|steps| - 1]);
    }
  }

  /** Running a region's generation again for the month, after any payments, disputes and generations, creates
      nothing. */
  lemma RerunCreatesNothing(s: State, region: string, period: Period, usages: seq<Usage>, ids: seq<string>,
                            steps: seq<Step>, laterUsages: seq<Usage>, laterIds: seq<string>)
    requires DistinctUsers(s.users)
    requires |usages| == |ids| == |laterUsages| == |laterIds| == |Billees(s.users, region)|
    ensures var bs := Billees(s.users, region);
      var s' := Run(BillAll(s, bs, period, usages, ids).0, steps);
      Billees(s'.users, region) == bs && BillAll(s', bs, period, laterUsages, laterIds) == (s', 0)
  {
    hide Billees, Billable, Covered, After;
    var bs := Billees(s.users, region);
    assert s.users[..|s.users|] == s.users;
    BilleesAreBillable(s.users, |s.users|, region);
    BillAllCovers(s, bs, period, usages, ids);
    var first := BillAll(s, bs, period, usages, ids).0;
    var s' := Run(first, steps);
    RunKeepsUsers(first, steps);
    forall k | 0 <= k < |bs| ensures Covered(s', bs[k], period) {
      CoverStaysOverRuns(first, steps, bs[k], period);
    }
    RebillingCreatesNothing(s', bs, period, laterUsages, laterIds);
  }

  ghost predicate NewIds(s: State, ids: seq<string>) {
    && (forall k :: 0 <= k < |ids| ==> FreshId(s, ids[k]))
    && forall j, k :: 0 <= j < k < |ids| ==> ids[j] != ids[k]
  }

  /** Billing a list keeps the ledger, and ids it did not use stay new. */
  lemma {:induction false} BillAllKeepsLedger(s: State, bs: seq<Billee>, period: Period,
                                                  usages: seq<Usage>, ids: seq<string>, id: string)
    requires |usages| == |bs| == |ids| && Ledger(s) && NewIds(s, ids) && FreshId(s, id)
    ensures var s' := BillAll(s, bs, period, usages, ids).0;
      Ledger(s') && (id !in ids ==> FreshId(s', id))
    decreases |bs|
  {
    hide Ledger;
    if bs != [] {
      var n := |bs| - 1;
      BillAllKeepsLedger(s, bs[..n], period, usages[..n], ids[..n], ids[n]);
      BillAllKeepsLedger(s, bs[..n], period, usages[..n], ids[..n], id);
      var before := BillAll(s, bs[..n], period, usages[..n], ids[..n]).0;
      assert ids == ids[..n] + [ids[n]];
      GenerateKeepsLedger(before, bs[n].userId, bs[n].meterId, period, usages[n], ids[n]);
    }
  }

  // ---------------------------------------------------------------- energy on invoices

  /** What the queries find for each of the users for month k. */
  function Usages(rows: seq<Minute>, ts: seq<Tariff>, bs: seq<Billee>, region: string,
                  k: int, offset: int): seq<Usage>
  {
    seq(|bs|, i requires 0 <= i < |bs| => MonthUsage(rows, ts, bs[i].meterId, region, k, offset))
  }

  /** Billing one user and meter for the months from k on, one after another, from the same aggregates and tariffs. */
  function BillMonths(s: State, b: Billee, rows: seq<Minute>, ts: seq<Tariff>,
                      k: int, offset: int, ids: seq<string>): State
    decreases |ids|
  {
    if ids == [] then s
    else
      var n := |ids| - 1;
      var u := MonthUsage(rows, ts, b.meterId, RegionOf(s.users, b.userId), k + n, offset);
      Generate(BillMonths(s, b, rows, ts, k, offset, ids[..n]), b.userId, b.meterId, PeriodOf(k + n, offset), u,
               ids[n]).0
  }

  /** None of these months has been billed yet. */
  ghost predicate Unbilled(s: State, b: Billee, k: int, last: int, offset: int) {
    forall m :: k <= m < last ==> !Covered(s, b, PeriodOf(m, offset))
  }

  /** The consumption column of these rows, in hundredths of a kWh. */
  function ConsumptionSum(vs: seq<Invoice>): int {
    if vs == [] then 0 else ConsumptionSum(vs[..|vs| - 1]) + vs[|vs| - 1].consumption
  }

  /** Row i carries the consumption of month k + i. */
  predicate CarriesMonth(vs: seq<Invoice>, i: nat, rows: seq<Minute>, meterId: string, k: int, offset: int)
    requires i < |vs|
  {
    vs[i].consumption == Hundredths(Consumption(rows, meterId, k + i, offset))
  }

  ghost predicate CarryMonths(vs: seq<Invoice>, rows: seq<Minute>, meterId: string, k: int, offset: int) {
    forall i :: 0 <= i < |vs| ==> CarriesMonth(vs, i, rows, meterId, k, offset)
  }

  lemma CarryOneMore(vs: seq<Invoice>, v: Invoice, rows: seq<Minute>, meterId: string, k: int, offset: int)
    ensures CarryMonths(vs + [v], rows, meterId, k, offset) <==>
      CarryMonths(vs, rows, meterId, k, offset) &&
      v.consumption == Hundredths(Consumption(rows, meterId, k + |vs|, offset))
  {
    hide Hundredths, Consumption;
    var ws := vs + [v];
    if CarryMonths(ws, rows, meterId, k, offset) {
      forall i | 0 <= i < |vs| ensures CarriesMonth(vs, i, rows, meterId, k, offset) {
        assert CarriesMonth(ws, i, rows, meterId, k, offset);
      }
      assert CarriesMonth(ws, |vs|, rows, meterId, k, offset);
    } else {
      var i: nat :| i < |ws| && !CarriesMonth(ws, i, rows, meterId, k, offset);
      assert i < |vs| ==> !CarriesMonth(vs, i, rows, meterId, k, offset);
    }
  }

  lemma CarryNone(rows: seq<Minute>, meterId: string, k: int, offset: int)
    ensures CarryMonths([], rows, meterId, k, offset)
  {
  }

  lemma PeriodsDiffer(j: int, k: int, offset: int)
    requires j != k
    ensures PeriodOf(j, offset) != PeriodOf(k, offset)
  {
    hide FirstDay;
    FirstDaysInOrder(if j < k then j else k, if j < k then k else j);
  }

  lemma NextMonth(s: State, b: Billee, k: int, last: int, offset: int, u: Usage, id: string)
    requires k < last && Unbilled(s, b, k, last, offset) && Billable(s.users, b)
    ensures var s' := Generate(s, b.userId, b.meterId, PeriodOf(k, offset), u, id).0;
      && Unbilled(s', b, k + 1, last, offset) && s'.users == s.users
      && |s'.invoices| == |s.invoices| + 1 && s.invoices == s'.invoices[..|s.invoices|]
      && s'.invoices[|s.invoices|].consumption == Hundredths(u.consumption)
  {
    hide PeriodOf, Hundredths;
    var p := PeriodOf(k, offset);
    var s' := Generate(s, b.userId, b.meterId, p, u, id).0;
    assert !Covered(s, b, p);
    forall m | k + 1 <= m < last ensures !Covered(s', b, PeriodOf(m, offset)) {
      assert !Covered(s, b, PeriodOf(m, offset));
      PeriodsDiffer(k, m, offset);
      forall i | 0 <= i < |s'.invoices| ensures !Bills(s'.invoices[i], b.userId, b.meterId, PeriodOf(m, offset)) {
        assert i < |s.invoices| ==> s'.invoices[i] == s.invoices[i];
      }
    }
  }

  lemma {:induction false} MonthsBilled(s: State, b: Billee, rows: seq<Minute>, ts: seq<Tariff>,
                                        k: int, last: int, offset: int, ids: seq<string>)
    requires k + |ids| <= last && Unbilled(s, b, k, last, offset) && Billable(s.users, b)
    ensures var s' := BillMonths(s, b, rows, ts, k, offset, ids);
      && Unbilled(s', b, k + |ids|, last, offset) && s'.users == s.users
      && |s'.invoices| == |s.invoices| + |ids| && s.invoices == s'.invoices[..|s.invoices|]
      && CarryMonths(s'.invoices[|s.invoices|..], rows, b.meterId, k, offset)
    decreases |ids|
  {
    hide Unbilled, Billable, Generate, Hundredths, Consumption, PeriodOf, RegionOf, CarryMonths;
    if ids != [] {
      var n := |ids| - 1;
      MonthsBilled(s, b, rows, ts, k, last, offset, ids[..n]);
      var before := BillMonths(s, b, rows, ts, k, offset, ids[..n]);
      var u := MonthUsage(rows, ts, b.meterId, RegionOf(s.users, b.userId), k + n, offset);
      NextMonth(before, b, k + n, last, offset, u, ids[n]);
      var s' := BillMonths(s, b, rows, ts, k, offset, ids);
      var m := |s.invoices|;
      assert s'.invoices[m..] == before.invoices[m..] + [s'.invoices[m + n]];
      assert s'.invoices[..m] == before.invoices[..m];
      CarryOneMore(before.invoices[m..], s'.invoices[m + n], rows, b.meterId, k, offset);
    } else {
      assert s.invoices[|s.invoices|..] == [];
      CarryNone(rows, b.meterId, k, offset);
    }
  }

  lemma {:induction false} RoundedMonths(vs: seq<Invoice>, rows: seq<Minute>, meterId: string, k: int, offset: int)
    requires CarryMonths(vs, rows, meterId, k, offset)
    ensures var slack, billed := 0.5 * |vs| as real, 100.0 * Billed(rows, meterId, k, k + |vs|, offset);
      -slack <= billed - ConsumptionSum(vs) as real <= slack
    decreases |vs|
  {
    hide Consumption, CarryMonths;
    if vs != [] {
      var n := |vs| - 1;
      assert vs == vs[..n] + [vs[n]];
      CarryOneMore(vs[..n], vs[n], rows, meterId, k, offset);
      RoundedMonths(vs[..n], rows, meterId, k, offset);
      BilledLast(rows, meterId, k, k + n, offset);
    }
  }

  lemma {:induction false} BilledLast(rows: seq<Minute>, meterId: string, k: int, last: int, offset: int)
    requires k <= last
    ensures Billed(rows, meterId, k, last + 1, offset) ==
      Billed(rows, meterId, k, last, offset) + Consumption(rows, meterId, last, offset)
    decreases last - k
  {
    hide Consumption;
    if k < last {
      BilledLast(rows, meterId, k + 1, last, offset);
    } else {
      assert Billed(rows, meterId, last + 1, last + 1, offset) == 0.0;
    }
  }

  /** Billing a user for a run of unbilled months adds one invoice a month, and the consumption on them is the energy
      metered in those months, every minute once, to within the rounding of each invoice to 0.01 kWh. */
  lemma InvoicesCarryTheEnergy(s: State, b: Billee, rows: seq<Minute>, ts: seq<Tariff>,
                               k: int, offset: int, ids: seq<string>)
    requires WholeSeconds(rows) && Billable(s.users, b) && Unbilled(s, b, k, k + |ids|, offset)
    ensures var s' := BillMonths(s, b, rows, ts, k, offset, ids);
      var n, slack := |s.invoices|, 0.5 * |ids| as real;
      var energy := 100.0 * Energy(rows, b.meterId, k, k + |ids|, offset);
      && |s'.invoices| == n + |ids| && s.invoices == s'.invoices[..n]
      && -slack <= energy - ConsumptionSum(s'.invoices[n..]) as real <= slack
  {
    hide BillMonths, Unbilled, Billable, Hundredths, Consumption, Billed, Energy, CarryMonths;
    MonthsBilled(s, b, rows, ts, k, k + |ids|, offset, ids);
    var s' := BillMonths(s, b, rows, ts, k, offset, ids);
    RoundedMonths(s'.invoices[|s.invoices|..], rows, b.meterId, k, offset);
    EnergyBilledOnce(rows, b.meterId, k, k + |ids|, offset);
  }
}
