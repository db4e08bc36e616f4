// Meter assignment: the least free meter of the simulator range, single and bulk assignment.

module MeterAssignment {
  import opened Text

  const RANGE := 10000

  /** A row of users; the table lists rows by created_at. */
  datatype User = User(userId: string, region: Option<string>, meterId: Option<string>)

  type Users = seq<User>

  /** `MTR-${String(i).padStart(8, '0')}` */
  function MeterName(i: nat): string {
    "MTR-" + PadStart(Decimal(i), 8)
  }

  /** A name is the prefix and eight digits that read as the id. */
  lemma NameReadsBack(i: nat)
    requires i < 100000000
    ensures var name := MeterName(i);
      && |name| == 12 && name[..4] == "MTR-"
      && (forall k :: 4 <= k < 12 ==> IsDigit(name[k])) && ParseDecimal(name[4..]) == i
  {
    hide Pad, PadStart, Decimal, Pow10;
    TenToTheEighth();
    PadStartIsPad(i, 7);
    ParseOfPad(i, 8);
    assert MeterName(i)[4..] == Pad(i, 8);
    assert forall k :: 4 <= k < 12 ==> MeterName(i)[k] == Pad(i, 8)[k - 4];
  }

  lemma TenToTheEighth()
    ensures Pow10(8) == 100000000
  {
    assert Pow10(4) == 10000;
    assert Pow10(8) == 10000 * Pow10(4);
  }

  /** The row of a user given a meter: nothing else changes but the region, and that only when one is given. */
  ghost predicate Equipped(before: User, after: User, meter: string, region: Option<string>) {
    && after.userId == before.userId && after.meterId == Some(meter)
    && (region.None? ==> after.region == before.region) && (region.Some? ==> after.region == region)
  }

  predicate InRange(i: int) {
    1 <= i <= RANGE
  }

  lemma NamesDiffer(i: nat, j: nat)
    requires i < Pow10(8) && j < Pow10(8)
    ensures MeterName(i) == MeterName(j) <==> i == j
  {
    hide Pad, PadStart, Decimal, Pow10;
    PadStartIsPad(i, 7);
    PadStartIsPad(j, 7);
    PadOrder(i, j, 8);
    assert MeterName(i)[4..] == Pad(i, 8) && MeterName(j)[4..] == Pad(j, 8);
  }

  lemma RangeNamesDiffer(i: int, j: int)
    requires InRange(i) && InRange(j)
    ensures MeterName(i) == MeterName(j) <==> i == j
  {
    assert Pow10(4) == 10000;
    assert Pow10(8) == 10000 * Pow10(4);
    NamesDiffer(i, j);
  }

  ghost predicate DistinctIds(users: Users) {
    forall i, j :: 0 <= i < j < |users| ==> users[i].userId != users[j].userId
  }

  /** No two users hold the same meter. */
  ghost predicate Exclusive(users: Users) {
    forall i, j :: 0 <= i < j < |users| && users[i].meterId.Some? ==> users[i].meterId != users[j].meterId
  }

  /** The meter ids of the rows that have one, as a set. */
  ghost function Meters(users: Users): set<string> {
    set i | 0 <= i < |users| && users[i].meterId.Some? :: users[i].meterId.value
  }

  // ---------------------------------------------------------------- free ids

  /** The ids from i to the end of the range whose name is not in use, ascending. */
  ghost function FreeFrom(inUse: set<string>, i: nat): (free: seq<nat>)
    ensures forall k :: 0 <= k < |free| ==> i <= free[k] <= RANGE
    decreases RANGE - i
  {
    if i > RANGE then [] else (if MeterName(i) in inUse then [] else [i]) + FreeFrom(inUse, i + 1)
  }

  ghost function Free(users: Users): (free: seq<nat>)
    ensures forall k :: 0 <= k < |free| ==> 1 <= free[k] <= RANGE
  {
    FreeFrom(Meters(users), 1)
  }

  lemma {:induction false} FreeMeaning(inUse: set<string>, i: nat, k: nat)
    ensures k in FreeFrom(inUse, i) <==> i <= k <= RANGE && MeterName(k) !in inUse
    decreases RANGE - i
  {
    hide MeterName;
    if i <= RANGE {
      FreeMeaning(inUse, i + 1, k);
    }
  }

  lemma {:induction false} FreeAscends(inUse: set<string>, i: nat)
    ensures forall j, k :: 0 <= j < k < |FreeFrom(inUse, i)| ==> FreeFrom(inUse, i)[j] < FreeFrom(inUse, i)[k]
    decreases RANGE - i
  {
    hide MeterName;
    if i <= RANGE {
      FreeAscends(inUse, i + 1);
    }
  }

  /** An id below i does not matter for the free ids from i on. */
  lemma {:induction false} FreeBeyond(inUse: set<string>, i: nat, taken: nat)
    requires 1 <= taken < i
    ensures FreeFrom(inUse + {MeterName(taken)}, i) == FreeFrom(inUse, i)
    decreases RANGE - i
  {
    hide MeterName;
    if i <= RANGE {
      RangeNamesDiffer(i, taken);
      FreeBeyond(inUse, i + 1, taken);
    }
  }

  /** Assigning the least free id leaves exactly the other free ones. */
  lemma {:induction false} FreeTail(inUse: set<string>, i: nat)
    requires 1 <= i && FreeFrom(inUse, i) != []
    ensures FreeFrom(inUse + {MeterName(FreeFrom(inUse, i)[0])}, i) == FreeFrom(inUse, i)[1..]
    decreases RANGE - i
  {
    hide MeterName;
    if MeterName(i) in inUse {
      FreeTail(inUse, i + 1);
    } else {
      FreeBeyond(inUse, i + 1, i);
    }
  }

  /** i is free and no smaller id is. */
  ghost predicate LeastFree(inUse: set<string>, i: nat) {
    MeterName(i) !in inUse && forall j :: 1 <= j < i ==> MeterName(j) in inUse
  }

  /** The name of the least free id from 1 to 10000, none when all are in use. */
  ghost predicate NextFree(inUse: set<string>, meter: Option<string>) {
    match meter
    case None => forall i :: 1 <= i <= 10000 ==> MeterName(i) in inUse
    case Some(name) => exists i :: 1 <= i <= 10000 && LeastFree(inUse, i) && name == MeterName(i)
  }

  lemma NextIs(inUse: set<string>)
    ensures var free := FreeFrom(inUse, 1);
      NextFree(inUse, if free == [] then None else Some(MeterName(free[0])))
  {
    hide MeterName, FreeFrom;
    var free := FreeFrom(inUse, 1);
    forall i: nat ensures i in free <==> 1 <= i <= RANGE && MeterName(i) !in inUse {
      FreeMeaning(inUse, 1, i);
    }
    FreeAscends(inUse, 1);
    if free == [] {
      assert forall i :: 1 <= i <= 10000 ==> i !in free;
    } else {
      assert free[0] in free;
      assert LeastFree(inUse, free[0]);
    }
  }

  // ---------------------------------------------------------------- pigeonhole

  ghost function Names(n: nat): (names: set<string>)
  {
    set i | 1 <= i <= n :: MeterName(i)
  }

  lemma {:induction false} NamesCount(n: nat)
    requires n <= RANGE
    ensures |Names(n)| == n
  {
    hide MeterName;
    if n > 0 {
      NamesCount(n - 1);
      forall i | 1 <= i < n ensures MeterName(i) != MeterName(n) {
        RangeNamesDiffer(i, n);
      }
      assert Names(n) == Names(n - 1) + {MeterName(n)};
      assert MeterName(n) !in Names(n - 1);
    } else {
      assert Names(0) == {};
    }
  }

  lemma Subset<T>(a: set<T>, b: set<T>)
    requires a <= b
    ensures |a| <= |b|
  {
    assert b == a + (b - a);
  }

  /** With fewer than 10000 meters in use, whatever their names, a free one exists. */
  lemma Pigeonhole(users: Users)
    requires |Meters(users)| < RANGE
    ensures Free(users) != []
  {
    hide MeterName;
    NamesCount(RANGE);
    if forall i :: 1 <= i <= RANGE ==> MeterName(i) in Meters(users) {
      Subset(Names(RANGE), Meters(users));
      assert false;
    }
    var i :| 1 <= i <= RANGE && MeterName(i) !in Meters(users);
    FreeMeaning(Meters(users), 1, i);
  }

  // ---------------------------------------------------------------- single assignment

  datatype Result = Assigned(userId: string, meterId: string, region: Option<string>) | NotFound | Conflict | Exhausted

  /** COALESCE(region, current) */
  function Coalesce(region: Option<string>, current: Option<string>): Option<string> {
    if region.Some? then region else current
  }

  function WithMeter(users: Users, at: nat, meter: string, region: Option<string>): Users
    requires at < |users|
  {
    users[at := users[at].(meterId := Some(meter), region := Coalesce(region, users[at].region))]
  }

  /** A meter id the code treats as present: null and "" are not. */
  predicate Present(m: Option<string>) {
    m.Some? && m.value != ""
  }

  predicate HeldByOther(users: Users, at: nat, meter: string) {
    exists i :: 0 <= i < |users| && i != at && users[i].meterId == Some(meter)
  }

  predicate Has(users: Users, at: nat, userId: string) {
    at < |users| && users[at].userId == userId
  }

  lemma MetersAfter(users: Users, at: nat, meter: string, region: Option<string>)
    requires at < |users| && users[at].meterId.None?
    ensures Meters(WithMeter(users, at, meter, region)) == Meters(users) + {meter}
  {
    var users' := WithMeter(users, at, meter, region);
    forall i | 0 <= i < |users| && users[i].meterId.Some?
      ensures users[i].meterId.value in Meters(users')
    {
      assert users'[i] == users[i];
    }
    assert users'[at].meterId == Some(meter);
  }

  /** Giving a user without a meter the least free one leaves exactly the other free ones. */
  lemma FreeAfter(users: Users, at: nat, region: Option<string>)
    requires at < |users| && users[at].meterId.None? && Free(users) != []
    ensures Free(WithMeter(users, at, MeterName(Free(users)[0]), region)) == Free(users)[1..]
  {
    hide MeterName;
    MetersAfter(users, at, MeterName(Free(users)[0]), region);
    FreeTail(Meters(users), 1);
  }

  /** The row already has a meter, or the wanted meter is someone else's. */
  ghost predicate Refused(users: Users, at: nat, wanted: Option<string>)
    requires at < |users|
  {
    || (users[at].meterId != None && users[at].meterId != Some(""))
    || (wanted != None && wanted != Some("") && HeldByOther(users, at, wanted.value))
  }

  /** No meter was asked for and none is free. */
  ghost predicate NoneLeft(users: Users, at: nat, wanted: Option<string>)
    requires at < |users|
  {
    users[at].meterId in {None, Some("")} && wanted in {None, Some("")} && Free(users) == []
  }

  /** The meter given: the wanted one if nobody else has it, else the least free one. */
  ghost predicate Given(users: Users, at: nat, wanted: Option<string>, meter: string)
    requires at < |users|
  {
    && users[at].meterId in {None, Some("")}
    && (wanted !in {None, Some("")} ==> Some(meter) == wanted && !HeldByOther(users, at, meter))
    && (wanted in {None, Some("")} ==>
          Free(users) != [] && meter == MeterName(Free(users)[0]) && NextFree(Meters(users), Some(meter)))
  }

  lemma AssignExclusive(users: Users, at: nat, meter: string, region: Option<string>)
    requires Exclusive(users) && at < |users| && !HeldByOther(users, at, meter)
    ensures Exclusive(WithMeter(users, at, meter, region))
    ensures DistinctIds(users) ==> DistinctIds(WithMeter(users, at, meter, region))
  {
  }

  lemma FreeNotHeld(users: Users, at: nat)
    requires Free(users) != []
    ensures !HeldByOther(users, at, MeterName(Free(users)[0]))
  {
    hide MeterName;
    FreeMeaning(Meters(users), 1, Free(users)[0]);
  }

  lemma MetersSnoc(users: Users, i: nat)
    requires i < |users|
    ensures Meters(users[..i + 1]) ==
      Meters(users[..i]) + if users[i].meterId.Some? then {users[i].meterId.value} else {}
  {
    assert users[..i + 1] == users[..i] + [users[i]];
    forall k | 0 <= k < i && users[k].meterId.Some?
      ensures users[k].meterId.value in Meters(users[..i]) && users[k].meterId.value in Meters(users[..i + 1])
    {
      assert users[..i][k] == users[k] && users[..i + 1][k] == users[k];
    }
    assert users[..i + 1][i] == users[i];
  }

  lemma SameUser(users: Users, i: nat, j: nat)
    requires DistinctIds(users) && i < |users| && j < |users| && users[i].userId == users[j].userId
    ensures i == j
  {
  }

  // ---------------------------------------------------------------- bulk assignment

  /** The positions of the users without a meter among the first n rows, in table order. */
  ghost function Pending(users: Users, n: nat): (ps: seq<nat>)
    requires n <= |users|
    ensures forall k :: 0 <= k < |ps| ==> ps[k] < n
  {
    if n == 0 then [] else Pending(users, n - 1) + if users[n - 1].meterId.None? then [n - 1] else []
  }

  lemma {:induction false} PendingMeaning(users: Users, n: nat)
    requires n <= |users|
    ensures forall p :: p in Pending(users, n) <==> 0 <= p < n && users[p].meterId.None?
    ensures forall j, k :: 0 <= j < k < |Pending(users, n)| ==> Pending(users, n)[j] < Pending(users, n)[k]
  {
    if n > 0 {
      PendingMeaning(users, n - 1);
    }
  }

  ghost predicate InTable(users: Users, pending: seq<nat>) {
    forall k :: 0 <= k < |pending| ==> pending[k] < |users|
  }

  /** Waiting users and free ids paired off in order until one of them runs out. */
  ghost function AssignAll(users: Users, pending: seq<nat>, free: seq<nat>): (r: Users)
    requires InTable(users, pending)
    ensures |r| == |users|
    decreases |pending|
  {
    if pending == [] || free == [] then users
    else
      var p := pending[0];
      AssignAll(WithMeter(users, p, MeterName(free[0]), users[p].region), pending[1..], free[1..])
  }

  lemma AllServed(users: Users, free: seq<nat>)
    ensures InTable(users, []) && AssignAll(users, [], free) == users
  {
  }

  /** After the first waiting user has been served, or not for want of a free id, the rest leads to the same table. */
  lemma AssignAllStep(users: Users, now: Users, pending: seq<nat>, free: seq<nat>)
    requires pending != [] && InTable(users, pending)
    requires free == [] ==> now == users
    requires free != [] ==> now == WithMeter(users, pending[0], MeterName(free[0]), users[pending[0]].region)
    ensures InTable(now, pending[1..])
    ensures AssignAll(now, pending[1..], if free == [] then free else free[1..]) == AssignAll(users, pending, free)
  {
  }

  function Least(a: nat, b: nat): nat {
    if a <= b then a else b
  }

  lemma LeastIs(n: nat, a: nat, b: nat)
    requires n <= a && n <= b && (n == a || n == b)
    ensures n == Least(a, b)
  {
  }

  /** The k-th user without a meter gets the k-th smallest free id, and nothing else changes. */
  lemma {:induction false} AssignAllPairs(users: Users, pending: seq<nat>, free: seq<nat>, q: nat)
    requires InTable(users, pending)
    requires forall j, k :: 0 <= j < k < |pending| ==> pending[j] < pending[k]
    requires q < |users|
    ensures var r, n := AssignAll(users, pending, free), Least(|pending|, |free|);
      && (forall k :: 0 <= k < n && pending[k] == q ==> r[q] == users[q].(meterId := Some(MeterName(free[k]))))
      && (q !in pending[..n] ==> r[q] == users[q])
    decreases |pending|
  {
    hide MeterName;
    if pending != [] && free != [] {
      var p := pending[0];
      var users' := WithMeter(users, p, MeterName(free[0]), users[p].region);
      var n := Least(|pending|, |free|);
      AssignAllPairs(users', pending[1..], free[1..], q);
      assert pending[..n] == [p] + pending[1..][..n - 1];
      assert users'[p] == users[p].(meterId := Some(MeterName(free[0])));
      if q == p {
        assert q !in pending[1..][..n - 1];
      }
      forall k | 0 < k < n && pending[k] == q
        ensures AssignAll(users, pending, free)[q] == users[q].(meterId := Some(MeterName(free[k])))
      {
        assert pending[1..][k - 1] == q && free[1..][k - 1] == free[k];
      }
    }
  }

  /** What bulk assignment does to the row at q: the k-th waiting user gets the k-th smallest free id, the free list
      being all free ids in ascending order, and every other row stays. */
  lemma BulkPairs(users: Users, q: nat)
    requires q < |users|
    ensures var pending, free := Pending(users, |users|), Free(users);
      var r, n := AssignAll(users, pending, free), Least(|pending|, |free|);
      && (forall id :: id in free <==> 1 <= id <= RANGE && MeterName(id) !in Meters(users))
      && (forall j, k :: 0 <= j < k < |free| ==> free[j] < free[k])
      && (forall k :: 0 <= k < n && pending[k] == q ==> r[q] == users[q].(meterId := Some(MeterName(free[k]))))
      && (q !in pending[..n] ==> r[q] == users[q])
  {
    hide MeterName, Meters, AssignAll;
    PendingMeaning(users, |users|);
    FreeAscends(Meters(users), 1);
    forall id: nat ensures id in Free(users) <==> 1 <= id <= RANGE && MeterName(id) !in Meters(users) {
      FreeMeaning(Meters(users), 1, id);
    }
    AssignAllPairs(users, Pending(users, |users|), Free(users), q);
  }

  /** No row but p has changed. */
  ghost predicate OnlyAt(before: Users, after: Users, p: nat) {
    |after| == |before| && forall j :: 0 <= j < |after| && j != p ==> after[j] == before[j]
  }

  /** These rows, in ascending order, still have no meter. */
  ghost predicate Queue(users: Users, waiting: seq<nat>) {
    && (forall i, j :: 0 <= i < j < |waiting| ==> waiting[i] < waiting[j])
    && forall j :: 0 <= j < |waiting| ==> waiting[j] < |users| && users[waiting[j]].meterId.None?
  }

  lemma QueueFirst(users: Users, waiting: seq<nat>)
    requires Queue(users, waiting)
    ensures InTable(users, waiting)
    ensures waiting != [] ==> waiting[0] < |users| && users[waiting[0]].meterId.None?
  {
  }

  lemma QueueNext(before: Users, after: Users, waiting: seq<nat>)
    requires waiting != [] && Queue(before, waiting) && OnlyAt(before, after, waiting[0])
    ensures Queue(after, waiting[1..])
  {
  }

  lemma PendingQueue(users: Users)
    ensures Queue(users, Pending(users, |users|))
  {
    PendingMeaning(users, |users|);
    var waiting := Pending(users, |users|);
    assert forall j :: 0 <= j < |waiting| ==> waiting[j] in waiting;
  }

  // ---------------------------------------------------------------- the service

  class MeterAssignmentService {
    var users: Users

    ghost predicate Valid()
      reads this
    {
      DistinctIds(users) && Exclusive(users)
    }

    constructor (users: Users)
      requires DistinctIds(users) && Exclusive(users)
      ensures Valid() && this.users == users
    {
      this.users := users;
    }

    method AssignedMeters() returns (inUse: set<string>)
      ensures inUse == Meters(users)
    {
      inUse := {};
      for i := 0 to |users|
        invariant inUse == Meters(users[..i])
      {
        MetersSnoc(users, i);
        if users[i].meterId.Some? {
          inUse := inUse + {users[i].meterId.value};
        }
      }
      assert users[..|users|] == users;
    }

    /** getNextAvailableMeter: the least free id, or none when the whole range is taken. */
    method GetNextAvailableMeter() returns (meter: Option<string>)
      ensures meter == if Free(users) == [] then None else Some(MeterName(Free(users)[0]))
      ensures NextFree(Meters(users), meter)
    {
      NextIs(Meters(users));
      hide MeterName, NextFree;
      var inUse := AssignedMeters();
      for i := 1 to RANGE + 1
        invariant Free(users) == FreeFrom(inUse, i)
      {
        if MeterName(i) !in inUse {
          return Some(MeterName(i));
        }
      }
      return None;
    }

    method Find(userId: string) returns (at: nat)
      ensures at <= |users|
      ensures at < |users| ==> users[at].userId == userId
      ensures at == |users| ==> forall i :: 0 <= i < |users| ==> users[i].userId != userId
    {
      at := 0;
      while at < |users| && users[at].userId != userId
        invariant at <= |users|
        invariant forall i :: 0 <= i < at ==> users[i].userId != userId
      {
        at := at + 1;
      }
    }

    /** Is the meter held by a row other than the user's? */
    method HeldByAnother(at: nat, meter: string) returns (held: bool)
      ensures held <==> HeldByOther(users, at, meter)
    {
      for i := 0 to |users|
        invariant forall k :: 0 <= k < i && k != at ==> users[k].meterId != Some(meter)
      {
        if i != at && users[i].meterId == Some(meter) {
          return true;
        }
      }
      return false;
    }

    /** assignMeterToUser: every outcome with its exact condition; a failed call changes nothing. */
    method AssignMeterToUser(userId: string, meterId: Option<string>, region: Option<string>)
      returns (r: Result, ghost at: nat)
      requires Valid()
      modifies this
      ensures Valid()
      ensures r.NotFound? <==> forall i :: 0 <= i < |old(users)| ==> old(users)[i].userId != userId
      ensures !r.NotFound? ==> Has(old(users), at, userId)
      ensures !r.NotFound? ==> (r.Conflict? <==> Refused(old(users), at, meterId))
      ensures !r.NotFound? ==> (r.Exhausted? <==> NoneLeft(old(users), at, meterId))
      ensures r.Assigned? ==> Given(old(users), at, meterId, r.meterId)
      ensures r.Assigned? ==> users == WithMeter(old(users), at, r.meterId, region)
      ensures r.Assigned? ==> OnlyAt(old(users), users, at) && Equipped(old(users)[at], users[at], r.meterId, region)
      ensures r.Assigned? ==> r.userId == users[at].userId && r.region == users[at].region
      ensures r.Assigned? ==> r.userId == userId && r.region == Coalesce(region, old(users)[at].region)
      ensures !r.Assigned? ==> users == old(users)
    {
      hide MeterName, Free, DistinctIds, Exclusive, HeldByOther, NextFree;
      var found := Find(userId);
      at := found;
      if found == |users| {
        return NotFound, at;
      }
      if Present(users[found].meterId) {
        return Conflict, at;
      }
      var meter := meterId;
      if !Present(meter) {
        meter := GetNextAvailableMeter();
        if meter.None? {
          return Exhausted, at;
        }
        FreeNotHeld(users, found);
      }
      var held := HeldByAnother(found, meter.value);
      if held {
        return Conflict, at;
      }
      AssignExclusive(users, found, meter.value, region);
      users := WithMeter(users, found, meter.value, region);
      r := Assigned(userId, meter.value, users[found].region);
    }

    /** unassignMeterFromUser */
    method UnassignMeterFromUser(userId: string) returns (found: bool, ghost at: nat)
      requires Valid()
      modifies this
      ensures Valid()
      ensures found <==> exists i :: 0 <= i < |old(users)| && old(users)[i].userId == userId
      ensures found ==> Has(old(users), at, userId) && users == old(users)[at := old(users)[at].(meterId := None)]
      ensures !found ==> users == old(users)
    {
      var i := Find(userId);
      at := i;
      found := i < |users|;
      if found {
        users := users[i := users[i].(meterId := None)];
      }
    }

    /** SELECT … WHERE meter_id IS NULL ORDER BY created_at */
    method Waiting() returns (waiting: seq<nat>)
      ensures waiting == Pending(users, |users|)
    {
      waiting := [];
      for n := 0 to |users|
        invariant waiting == Pending(users, n)
      {
        if users[n].meterId.None? {
          waiting := waiting + [n];
        }
      }
    }

    /** One round of bulkAssignMeters: the user without a meter at position p gets the least free one, if any. */
    method AssignWaiting(p: nat) returns (r: Result)
      requires Valid() && p < |users| && users[p].meterId.None?
      modifies this
      ensures Valid() && |users| == |old(users)| && OnlyAt(old(users), users, p)
      ensures Free(old(users)) == [] ==> r.Exhausted? && users == old(users)
      ensures Free(old(users)) != [] ==>
        && users == WithMeter(old(users), p, MeterName(Free(old(users))[0]), old(users)[p].region)
        && r == Assigned(users[p].userId, MeterName(Free(old(users))[0]), users[p].region)
        && Free(users) == Free(old(users))[1..]
    {
      hide MeterName, Free, DistinctIds, Exclusive, HeldByOther;
      ghost var now := users;
      ghost var at;
      r, at := AssignMeterToUser(users[p].userId, None, users[p].region);
      SameUser(now, at, p);
      if r.Assigned? {
        FreeAfter(now, p, now[p].region);
      }
    }

    /** One step of the loop: where the whole queue leads does not change. */
    method AssignNext(p: nat, ghost rest: seq<nat>) returns (r: Result)
      requires Valid() && Queue(users, rest) && InTable(users, rest) && rest != [] && p == rest[0]
      modifies this
      ensures Valid() && |users| == |old(users)| && Queue(users, rest[1..]) && InTable(users, rest[1..])
      ensures AssignAll(users, rest[1..], Free(users)) == old(AssignAll(users, rest, Free(users)))
      ensures r.Assigned? <==> old(Free(users)) != []
      ensures |Free(users)| == |old(Free(users))| - if r.Assigned? then 1 else 0
    {
      hide *;
      ghost var was, free := users, Free(users);
      QueueFirst(was, rest);
      r := AssignWaiting(p);
      QueueNext(was, users, rest);
      AssignAllStep(was, users, rest, free);
    }

    /** bulkAssignMeters */
    method BulkAssignMeters() returns (success: nat, failed: nat, results: seq<Result>)
      requires Valid()
      modifies this
      ensures Valid()
      ensures users == AssignAll(old(users), Pending(old(users), |old(users)|), Free(old(users)))
      ensures success == Least(|Pending(old(users), |old(users)|)|, |Free(old(users))|)
      ensures success + failed == |results| == |Pending(old(users), |old(users)|)|
      ensures forall k :: 0 <= k < |results| ==> (results[k].Assigned? <==> k < success)
    {
      hide *;
      success, failed, results := 0, 0, [];
      ghost var before := users;
      var waiting := Waiting();
      PendingQueue(before);
      QueueFirst(before, waiting);
      ghost var rest := waiting;
      for k := 0 to |waiting|
        invariant Valid() && |results| == k == success + failed && rest == waiting[k..]
        invariant Queue(users, rest) && InTable(users, rest) && InTable(before, waiting)
        invariant AssignAll(users, rest, Free(users)) == AssignAll(before, waiting, Free(before))
        invariant success <= |Free(before)| && |Free(users)| == |Free(before)| - success
        invariant success == k || Free(users) == []
        invariant forall j :: 0 <= j < k ==> (results[j].Assigned? <==> j < success)
      {
        var r := AssignNext(waiting[k], rest);
        results := results + [r];
        if r.Assigned? {
          success := success + 1;
        } else {
          failed := failed + 1;
        }
        rest := rest[1..];
      }
      AllServed(users, Free(users));
      LeastIs(success, |waiting|, |Free(before)|);
    }
  }
}
