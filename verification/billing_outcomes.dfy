// What each call answers and does to the tables, row by row and column by column.

module BillingOutcomes {
  import opened Text
  import opened BillingPeriod
  import opened Billing

  ghost predicate Owns(v: Invoice, id: string, userId: string) {
    v.id == id && v.userId == userId
  }

  /** The user's invoice of that id; the first, should the table hold several. */
  ghost predicate TheInvoice(vs: seq<Invoice>, i: nat, id: string, userId: string) {
    i < |vs| && Owns(vs[i], id, userId) && forall j :: 0 <= j < i ==> !Owns(vs[j], id, userId)
  }

  ghost predicate OwnsNone(vs: seq<Invoice>, id: string, userId: string) {
    forall i :: 0 <= i < |vs| ==> !Owns(vs[i], id, userId)
  }

  /** The payment of v leaves w: a blank reference is no reference, blank notes leave the notes as they were. */
  ghost predicate PaidBy(v: Invoice, w: Invoice, p: Payment, now: int) {
    && SameCharge(v, w) && w.status == Paid && w.paymentMethod == Some(p.method_)
    && w.paidAt == (match p.paidAt case Some(at) => Some(at) case None => Some(now))
    && w.paymentReference == (if p.reference == Some("") then None else p.reference)
    && w.notes == (if p.notes == None || p.notes == Some("") then v.notes else p.notes)
    && w.isDisputed == v.isDisputed && w.disputedAt == v.disputedAt && w.disputeReason == v.disputeReason
  }

  /** The owner's payment of an invoice that is neither paid nor cancelled marks that row, adds one completed
      transaction of its total, and nothing else; every other call changes nothing and says why. */
  lemma PayMeans(s: State, id: string, userId: string, p: Payment, now: int, i: nat)
    ensures var (s', outcome) := Pay(s, id, userId, p, now);
      && (OwnsNone(s.invoices, id, userId) ==> outcome == InvoiceNotFound)
      && (outcome != Done ==> s' == s)
    ensures TheInvoice(s.invoices, i, id, userId) ==>
      var (s', outcome) := Pay(s, id, userId, p, now);
      var v := s.invoices[i];
      && (v.status == Paid ==> outcome == AlreadyPaid)
      && (v.status == Cancelled ==> outcome == PaymentOfCancelled)
      && (v.status in {Pending, Overdue, Disputed} ==>
            && outcome == Done && s'.users == s.users
            && |s'.invoices| == |s.invoices| && PaidBy(v, s'.invoices[i], p, now)
            && (forall j :: 0 <= j < |s.invoices| && j != i ==> s'.invoices[j] == s.invoices[j])
            && s'.transactions == s.transactions + [Transaction(id, userId, v.totalCost)])
  {
    var at := InvoiceAt(s.invoices, id, userId);
    if TheInvoice(s.invoices, i, id, userId) {
      assert Owns(s.invoices[i], id, userId);
      assert at < |s.invoices| ==> Owns(s.invoices[at], id, userId);
      assert at == i;
    }
    assert at < |s.invoices| ==> Owns(s.invoices[at], id, userId);
  }

  /** The dispute of v leaves w. */
  ghost predicate DisputedBy(v: Invoice, w: Invoice, reason: string, now: int) {
    && SameCharge(v, w) && w.status == Disputed && w.isDisputed && w.disputedAt == Some(now)
    && w.disputeReason == Some(reason) && w.paidAt == v.paidAt && w.paymentMethod == v.paymentMethod
    && w.paymentReference == v.paymentReference && w.notes == v.notes
  }

  /** The owner's dispute of an invoice that is not paid marks that row and nothing else; every other changes
      nothing. */
  lemma DisputeMeans(s: State, id: string, userId: string, reason: string, now: int, i: nat)
    ensures var (s', outcome) := Dispute(s, id, userId, reason, now);
      && (OwnsNone(s.invoices, id, userId) ==> outcome == InvoiceNotFound)
      && (outcome != Done ==> s' == s)
    ensures TheInvoice(s.invoices, i, id, userId) ==>
      var (s', outcome) := Dispute(s, id, userId, reason, now);
      var v := s.invoices[i];
      && (v.status == Paid ==> outcome == InvoiceNotFound)
      && (v.status != Paid ==>
            && outcome == Done && s'.users == s.users && s'.transactions == s.transactions
            && |s'.invoices| == |s.invoices| && DisputedBy(v, s'.invoices[i], reason, now)
            && (forall j :: 0 <= j < |s.invoices| && j != i ==> s'.invoices[j] == s.invoices[j]))
  {
    var at := InvoiceAt(s.invoices, id, userId);
    if TheInvoice(s.invoices, i, id, userId) {
      assert Owns(s.invoices[i], id, userId);
      assert at < |s.invoices| ==> Owns(s.invoices[at], id, userId);
      assert at == i;
    }
    assert at < |s.invoices| ==> Owns(s.invoices[at], id, userId);
  }

  /** An invoice of this user and meter whose billing period has exactly these bounds. */
  ghost predicate Invoiced(vs: seq<Invoice>, userId: string, meterId: string, p: Period) {
    exists i ::
      && 0 <= i < |vs| && vs[i].userId == userId && vs[i].meterId == meterId
      && vs[i].period.start == p.start && vs[i].period.end == p.end
  }

  /** The user's row; the first, should the table hold several. */
  ghost predicate TheUser(users: seq<User>, i: nat, userId: string) {
    i < |users| && users[i].userId == userId && forall j :: 0 <= j < i ==> users[j].userId != userId
  }

  ghost predicate Unknown(users: seq<User>, userId: string) {
    forall i :: 0 <= i < |users| ==> users[i].userId != userId
  }

  /** A user with a region and no invoice for the meter and period gets one more invoice and nothing else changes; every
      other call changes nothing and says why. */
  lemma GenerateMeans(s: State, userId: string, meterId: string, p: Period, u: Usage, id: string, i: nat)
    ensures var (s', outcome) := Generate(s, userId, meterId, p, u, id);
      && (Unknown(s.users, userId) ==> outcome == UserNotFound)
      && (outcome != Done ==> s' == s)
    ensures TheUser(s.users, i, userId) ==>
      var (s', outcome) := Generate(s, userId, meterId, p, u, id);
      && (outcome == InvoiceExists <==> Invoiced(s.invoices, userId, meterId, p))
      && (outcome == RegionMissing <==> !Invoiced(s.invoices, userId, meterId, p) && s.users[i].region.None?)
      && (outcome == Done <==> !Invoiced(s.invoices, userId, meterId, p) && s.users[i].region.Some?)
      && (outcome == Done ==>
            && s'.users == s.users && s'.transactions == s.transactions
            && |s'.invoices| == |s.invoices| + 1 && s'.invoices[..|s.invoices|] == s.invoices)
  {
    var at := UserAt(s.users, userId);
    if TheUser(s.users, i, userId) {
      assert at == i;
    }
    assert Invoiced(s.invoices, userId, meterId, p) <==> HasInvoice(s.invoices, userId, meterId, p) by {
      if HasInvoice(s.invoices, userId, meterId, p) {
        var j :| 0 <= j < |s.invoices| && Bills(s.invoices[j], userId, meterId, p);
        assert s.invoices[j].period.start == p.start;
      }
      if Invoiced(s.invoices, userId, meterId, p) {
        var j :| 0 <= j < |s.invoices| && s.invoices[j].userId == userId && s.invoices[j].meterId == meterId &&
                 s.invoices[j].period.start == p.start && s.invoices[j].period.end == p.end;
        assert Bills(s.invoices[j], userId, meterId, p);
      }
    }
  }
}
