// DeduplicationService: SET key NX EX ttl on a shared store. Times are milliseconds.

module Dedupe {
  import opened Text

  datatype Reading = Reading(meterId: string, timestamp: string, body: string)

  // ---------------------------------------------------------------- keys

  function GenerateKey(meterId: string, timestamp: string): string {
    "reading:" + meterId + ":" + timestamp
  }

  predicate Digits(s: string) {
    forall i :: 0 <= i < |s| ==> IsDigit(s[i])
  }

  /** `Z`, or a fraction of a second and `Z` */
  predicate ZuluTail(s: string) {
    s == "Z" || (|s| >= 3 && s[0] == '.' && Digits(s[1..|s| - 1]) && s[|s| - 1] == 'Z')
  }

  /** What the schema's datetime accepts, calendar ranges apart: `YYYY-MM-DDTHH:MM` in UTC,
      with seconds (optional in the later zod 3 releases) and a fraction of any length. */
  predicate AcceptedTimestamp(t: string) {
    && |t| >= 17
    && Digits(t[..4]) && t[4] == '-' && Digits(t[5..7]) && t[7] == '-' && Digits(t[8..10]) && t[10] == 'T'
    && Digits(t[11..13]) && t[13] == ':' && Digits(t[14..16])
    && (t[16..] == "Z" || (|t| >= 20 && t[16] == ':' && Digits(t[17..19]) && ZuluTail(t[19..])))
  }

  /** Every text of these three forms is accepted: to the minute, to the second, and with a fraction of a second. */
  lemma FormsAccepted(y: string, mo: string, d: string, h: string, mi: string, sec: string, fraction: string)
    requires |y| == 4 && |mo| == |d| == |h| == |mi| == |sec| == 2 && |fraction| > 0
    requires Digits(y) && Digits(mo) && Digits(d) && Digits(h) && Digits(mi) && Digits(sec) && Digits(fraction)
    ensures var head := y + "-" + mo + "-" + d + "T" + h + ":" + mi;
      && AcceptedTimestamp(head + "Z") && AcceptedTimestamp(head + (":" + sec + "Z"))
      && AcceptedTimestamp(head + (":" + sec + "." + fraction + "Z"))
  {
    HeadAccepted(y, mo, d, h, mi, "Z");
    HeadAccepted(y, mo, d, h, mi, ":" + sec + "Z");
    HeadAccepted(y, mo, d, h, mi, ":" + sec + "." + fraction + "Z");
    hide Digits;
    var head := y + "-" + mo + "-" + d + "T" + h + ":" + mi;
    var t, u := head + (":" + sec + "Z"), head + (":" + sec + "." + fraction + "Z");
    assert t[17..19] == sec && t[19..] == "Z";
    assert u[17..19] == sec && u[19..] == "." + fraction + "Z";
    assert u[19..][1..|u[19..]| - 1] == fraction;
  }

  lemma HeadAccepted(y: string, mo: string, d: string, h: string, mi: string, tail: string)
    requires |y| == 4 && |mo| == |d| == |h| == |mi| == 2
    requires Digits(y) && Digits(mo) && Digits(d) && Digits(h) && Digits(mi)
    ensures var t := y + "-" + mo + "-" + d + "T" + h + ":" + mi + tail;
      && Digits(t[..4]) && t[4] == '-' && Digits(t[5..7]) && t[7] == '-' && Digits(t[8..10]) && t[10] == 'T'
      && Digits(t[11..13]) && t[13] == ':' && Digits(t[14..16]) && t[16..] == tail
  {
    hide Digits;
    var t := y + "-" + mo + "-" + d + "T" + h + ":" + mi + tail;
    assert t[..4] == y && t[5..7] == mo && t[8..10] == d && t[11..13] == h && t[14..16] == mi && t[16..] == tail;
  }

  lemma OneT(t: string, i: nat)
    requires AcceptedTimestamp(t) && i < |t| && i != 10
    ensures t[i] != 'T'
  {
    var parts := [t[..4], t[5..7], t[8..10], t[11..13], t[14..16]];
    if i < 10 {
      assert i < 4 ==> t[i] == parts[0][i];
      assert 5 <= i < 7 ==> t[i] == parts[1][i - 5];
      assert 8 <= i ==> t[i] == parts[2][i - 8];
    } else if i < 16 {
      assert i < 13 ==> t[i] == parts[3][i - 11];
      assert 14 <= i ==> t[i] == parts[4][i - 14];
    } else {
      assert t[i] == t[16..][i - 16];
      if |t| >= 20 && t[16] == ':' {
        assert 17 <= i < 19 ==> t[i] == t[17..19][i - 17];
        var tail := t[19..];
        assert i >= 19 ==> t[i] == tail[i - 19];
        assert 19 < i < |t| - 1 && |tail| >= 3 ==> t[i] == tail[1..|tail| - 1][i - 20];
      }
    }
  }

  /** The longer x of two equal `x:y` texts continues the shorter one after a colon. */
  lemma LongerHead(a: string, b: string, c: string, d: string)
    requires a + ":" + b == c + ":" + d && |a| < |c|
    ensures a + ":" <= c && b == c[|a| + 1..] + ":" + d
  {
    var whole := a + ":" + b;
    assert b == whole[|a| + 1..];
    assert a + ":" == whole[..|a| + 1] == c[..|a| + 1];
  }

  lemma SameHead(a: string, b: string, c: string, d: string)
    requires a + ":" + b == c + ":" + d && |a| == |c|
    ensures a == c && b == d
  {
    var whole := a + ":" + b;
    assert a == whole[..|a|] && c == whole[..|c|];
    assert b == whole[|a| + 1..] && d == whole[|c| + 1..];
  }

  lemma KeyBody(m1: string, t1: string, m2: string, t2: string)
    ensures GenerateKey(m1, t1) == GenerateKey(m2, t2) <==> m1 + ":" + t1 == m2 + ":" + t2
  {
    var p := "reading:";
    assert GenerateKey(m1, t1) == p + (m1 + ":" + t1) && GenerateKey(m2, t2) == p + (m2 + ":" + t2);
    assert m1 + ":" + t1 == GenerateKey(m1, t1)[|p|..] && m2 + ":" + t2 == GenerateKey(m2, t2)[|p|..];
  }

  lemma NoLongerHead(m1: string, t1: string, m2: string, t2: string)
    requires AcceptedTimestamp(t1) && AcceptedTimestamp(t2) && m1 + ":" + t1 == m2 + ":" + t2
    ensures |m1| >= |m2|
  {
    if |m1| < |m2| {
      LongerHead(m1, t1, m2, t2);
      var mid := m2[|m1| + 1..];
      assert t1[|mid| + 11] == t2[10];
      OneT(t1, |mid| + 11);
      assert false;
    }
  }

  /** Keys of readings that pass the schema name the pair, whatever characters the meter ids have:
      the date of an accepted timestamp cannot lie inside the time of another. */
  lemma KeyInjective(m1: string, t1: string, m2: string, t2: string)
    requires AcceptedTimestamp(t1) && AcceptedTimestamp(t2)
    ensures GenerateKey(m1, t1) == GenerateKey(m2, t2) <==> m1 == m2 && t1 == t2
  {
    hide GenerateKey, AcceptedTimestamp;
    KeyBody(m1, t1, m2, t2);
    if GenerateKey(m1, t1) == GenerateKey(m2, t2) {
      NoLongerHead(m1, t1, m2, t2);
      NoLongerHead(m2, t2, m1, t1);
      SameHead(m1, t1, m2, t2);
    }
  }

  /** Of timestamps the schema has not seen, different meters can share a key if and only if one meter id
      continues the other after a colon. */
  lemma UncheckedKeys(m1: string, m2: string)
    requires m1 != m2
    ensures (exists t1, t2 :: GenerateKey(m1, t1) == GenerateKey(m2, t2)) <==> m1 + ":" <= m2 || m2 + ":" <= m1
  {
    if t1, t2 :| GenerateKey(m1, t1) == GenerateKey(m2, t2) {
      KeyBody(m1, t1, m2, t2);
      if |m1| < |m2| {
        LongerHead(m1, t1, m2, t2);
      } else if |m2| < |m1| {
        LongerHead(m2, t2, m1, t1);
      } else {
        SameHead(m1, t1, m2, t2);
      }
    }
    if m1 + ":" <= m2 {
      KeyBody(m1, m2[|m1| + 1..] + ":", m2, "");
      assert m1 + ":" + (m2[|m1| + 1..] + ":") == m2 + ":" + "";
    } else if m2 + ":" <= m1 {
      KeyBody(m1, "", m2, m1[|m2| + 1..] + ":");
      assert m2 + ":" + (m1[|m2| + 1..] + ":") == m1 + ":" + "";
    }
  }

  // ---------------------------------------------------------------- marks

  /** key -> instant at which the marker expires */
  type Store = map<string, int>

  predicate Live(store: Store, key: string, now: int) {
    key in store && now < store[key]
  }

  /** SET key '1' NX EX: the new store */
  function Marked(store: Store, key: string, now: int, ttl: nat): Store {
    if Live(store, key, now) then store else store[key := now + ttl]
  }

  /** One SET reaching the store. */
  datatype Mark = Mark(key: string, at: int)

  function StoreAfter(store: Store, marks: seq<Mark>, ttl: nat): Store {
    if marks == [] then store
    else
      var last := marks[|marks| - 1];
      Marked(StoreAfter(store, marks[..|marks| - 1], ttl), last.key, last.at, ttl)
  }

  /** 1 when m is a SET for key that finds no live marker */
  function ToldNew(store: Store, m: Mark, key: string): nat {
    if m.key == key && !Live(store, key, m.at) then 1 else 0
  }

  /** How often a SET for `key` is told the key is new. */
  function Accepted(store: Store, marks: seq<Mark>, ttl: nat, key: string): nat {
    if marks == [] then 0
    else
      var init, last := marks[..|marks| - 1], marks[|marks| - 1];
      Accepted(store, init, ttl, key) + ToldNew(StoreAfter(store, init, ttl), last, key)
  }

  /** first is the position of the first SET for key. */
  predicate FirstFor(marks: seq<Mark>, first: nat, key: string) {
    first < |marks| && marks[first].key == key && forall i :: 0 <= i < first ==> marks[i].key != key
  }

  lemma {:induction false} OtherKeys(store: Store, marks: seq<Mark>, ttl: nat, key: string)
    requires forall i :: 0 <= i < |marks| ==> marks[i].key != key
    ensures Accepted(store, marks, ttl, key) == 0
    ensures key in StoreAfter(store, marks, ttl) <==> key in store
    ensures key in store ==> StoreAfter(store, marks, ttl)[key] == store[key]
  {
    if marks != [] {
      var init := marks[..|marks| - 1];
      assert forall i :: 0 <= i < |init| ==> init[i] == marks[i];
      OtherKeys(store, init, ttl, key);
    }
  }

  lemma {:induction false} SinceFirst(store: Store, marks: seq<Mark>, ttl: nat, key: string, first: nat)
    requires ttl > 0 && FirstFor(marks, first, key) && !Live(store, key, marks[first].at)
    ensures Accepted(store, marks, ttl, key) >= 1
    ensures var inTime := forall i :: 0 <= i < |marks| && marks[i].key == key ==> marks[i].at < marks[first].at + ttl;
      && (Accepted(store, marks, ttl, key) == 1 <==> inTime)
      && (inTime ==>
          key in StoreAfter(store, marks, ttl) && StoreAfter(store, marks, ttl)[key] == marks[first].at + ttl)
  {
    var init, last := marks[..|marks| - 1], marks[|marks| - 1];
    assert forall i :: 0 <= i < |init| ==> init[i] == marks[i];
    if first == |marks| - 1 {
      OtherKeys(store, init, ttl, key);
    } else {
      SinceFirst(store, init, ttl, key, first);
    }
  }

  /** A key is accepted exactly once over any sequence of SETs, whatever their order and whatever
      other keys do, if and only if no SET for it comes a full ttl or more after its first one. */
  lemma AcceptedOnce(store: Store, marks: seq<Mark>, ttl: nat, key: string, first: nat)
    requires ttl > 0 && FirstFor(marks, first, key) && !Live(store, key, marks[first].at)
    ensures Accepted(store, marks, ttl, key) == 1 <==>
      forall i :: 0 <= i < |marks| && marks[i].key == key ==> marks[i].at < marks[first].at + ttl
  {
    SinceFirst(store, marks, ttl, key, first);
  }

  lemma {:induction false} FindFirst(marks: seq<Mark>, i: nat, key: string) returns (first: nat)
    requires i < |marks| && marks[i].key == key
    ensures FirstFor(marks, first, key) && first <= i
  {
    if j: nat :| j < i && marks[j].key == key {
      first := FindFirst(marks, j, key);
    } else {
      first := i;
    }
  }

  /** SETs for a key that all fall within less than one ttl accept it at most once. */
  lemma WithinTtl(store: Store, marks: seq<Mark>, ttl: nat, key: string, from: int)
    requires key !in store
    requires forall i :: 0 <= i < |marks| && marks[i].key == key ==> from <= marks[i].at < from + ttl
    ensures Accepted(store, marks, ttl, key) == if exists i :: 0 <= i < |marks| && marks[i].key == key then 1 else 0
  {
    if i: nat :| i < |marks| && marks[i].key == key {
      var first := FindFirst(marks, i, key);
      AcceptedOnce(store, marks, ttl, key, first);
    } else {
      OtherKeys(store, marks, ttl, key);
    }
  }

  // ---------------------------------------------------------------- the service

  function KeyOf(r: Reading): string {
    GenerateKey(r.meterId, r.timestamp)
  }

  function MarksOf(arrivals: seq<Reading>, at: seq<int>): (marks: seq<Mark>)
    requires |arrivals| == |at|
    ensures |marks| == |at|
  {
    seq(|at|, i requires 0 <= i < |at| => Mark(KeyOf(arrivals[i]), at[i]))
  }

  function CountKey(rs: seq<Reading>, key: string): nat {
    if rs == [] then 0 else CountKey(rs[..|rs| - 1], key) + if KeyOf(rs[|rs| - 1]) == key then 1 else 0
  }

  lemma NoMarks(store: Store, ttl: nat)
    ensures StoreAfter(store, [], ttl) == store
    ensures forall key :: Accepted(store, [], ttl, key) == 0 == CountKey([], key)
  {
  }

  lemma NextMark(store: Store, marks: seq<Mark>, i: nat, ttl: nat)
    requires i < |marks|
    ensures StoreAfter(store, marks[..i + 1], ttl) ==
      Marked(StoreAfter(store, marks[..i], ttl), marks[i].key, marks[i].at, ttl)
    ensures forall key ::
      Accepted(store, marks[..i + 1], ttl, key) ==
      Accepted(store, marks[..i], ttl, key) + ToldNew(StoreAfter(store, marks[..i], ttl), marks[i], key)
  {
    assert marks[..i + 1][..i] == marks[..i];
  }

  lemma CountNext(rs: seq<Reading>, r: Reading)
    ensures forall key :: CountKey(rs + [r], key) == CountKey(rs, key) + if KeyOf(r) == key then 1 else 0
  {
    assert (rs + [r])[..|rs|] == rs;
  }

  /** Of the first i readings to arrive, those kept are as many for each key as its accepted SETs. */
  ghost predicate Kept(unique: seq<Reading>, store: Store, marks: seq<Mark>, i: nat, ttl: nat)
    requires i <= |marks|
  {
    forall key :: CountKey(unique, key) == Accepted(store, marks[..i], ttl, key)
  }

  lemma KeptNext(unique: seq<Reading>, store: Store, marks: seq<Mark>, i: nat, ttl: nat, r: Reading)
    requires i < |marks| && Kept(unique, store, marks, i, ttl) && marks[i].key == KeyOf(r)
    ensures var now := StoreAfter(store, marks[..i], ttl);
      && StoreAfter(store, marks[..i + 1], ttl) == Marked(now, KeyOf(r), marks[i].at, ttl)
      && Kept(if Live(now, KeyOf(r), marks[i].at) then unique else unique + [r], store, marks, i + 1, ttl)
  {
    hide GenerateKey, Accepted, StoreAfter, CountKey, Marked;
    NextMark(store, marks, i, ttl);
    CountNext(unique, r);
  }

  lemma MarkAt(arrivals: seq<Reading>, at: seq<int>, i: nat)
    requires |at| == |arrivals| && i < |at|
    ensures |MarksOf(arrivals, at)| == |at| && MarksOf(arrivals, at)[i] == Mark(KeyOf(arrivals[i]), at[i])
  {
  }

  lemma KeptAll(unique: seq<Reading>, store: Store, marks: seq<Mark>, ttl: nat)
    requires Kept(unique, store, marks, |marks|, ttl)
    ensures forall key :: CountKey(unique, key) == Accepted(store, marks, ttl, key)
  {
    assert marks[..|marks|] == marks;
  }

  class DeduplicationService {
    var store: Store
    const ttl: nat

    constructor (ttl: nat)
      ensures store == map[] && this.ttl == ttl
    {
      store := map[];
      this.ttl := ttl;
    }

    method CheckAndMark(meterId: string, timestamp: string, now: int) returns (isNew: bool)
      modifies this
      ensures isNew == !old(Live(store, GenerateKey(meterId, timestamp), now))
      ensures store == Marked(old(store), GenerateKey(meterId, timestamp), now, ttl)
    {
      var key := GenerateKey(meterId, timestamp);
      if key in store && now < store[key] {
        isNew := false;
      } else {
        store := store[key := now + ttl];
        isNew := true;
      }
    }

    /** The SETs of one batch run in parallel: `arrivals` is the order in which they reach the store,
        any permutation of the readings, and `at` the instants. */
    method FilterDuplicates(readings: seq<Reading>, arrivals: seq<Reading>, at: seq<int>)
      returns (unique: seq<Reading>, duplicates: seq<Reading>)
      requires multiset(arrivals) == multiset(readings) && |at| == |arrivals|
      modifies this
      ensures multiset(unique) + multiset(duplicates) == multiset(readings)
      ensures store == StoreAfter(old(store), MarksOf(arrivals, at), ttl)
      ensures forall key :: CountKey(unique, key) == Accepted(old(store), MarksOf(arrivals, at), ttl, key)
    {
      unique, duplicates := [], [];
      ghost var marks := MarksOf(arrivals, at);
      assert arrivals[..0] == [] && marks[..0] == [];
      NoMarks(store, ttl);
      assert Kept(unique, store, marks, 0, ttl);
      hide GenerateKey, MarksOf, Accepted, StoreAfter, CountKey, Kept, Live, Marked;
      for i := 0 to |arrivals|
        invariant multiset(unique) + multiset(duplicates) == multiset(arrivals[..i])
        invariant store == StoreAfter(old(store), marks[..i], ttl)
        invariant Kept(unique, old(store), marks, i, ttl)
      {
        var r := arrivals[i];
        MarkAt(arrivals, at, i);
        KeptNext(unique, old(store), marks, i, ttl, r);
        var isNew := CheckAndMark(r.meterId, r.timestamp, at[i]);
        assert arrivals[..i + 1] == arrivals[..i] + [r];
        if isNew {
          unique := unique + [r];
        } else {
          duplicates := duplicates + [r];
        }
      }
      assert arrivals[..|arrivals|] == arrivals && marks[..|arrivals|] == marks;
      KeptAll(unique, old(store), marks, ttl);
    }
  }
}
