/**
 TimeList of source/util/util_timelist.h: an expiry list with a key index, whose sweep stops at the first entry
 that is not due. Functions on the list of (key, expiry) pairs first, then the class with its two structures.
 */
module TimeLists {

  /** Every use in the source has K = uint32_t. */
  type Key = nat

  datatype Entry = Entry(key: Key, time: nat)

  ghost predicate Distinct(l: seq<Entry>) {
    forall i, j :: 0 <= i < j < |l| ==> l[i].key != l[j].key
  }

  ghost predicate HasKey(l: seq<Entry>, key: Key) {
    exists i :: 0 <= i < |l| && l[i].key == key
  }

  ghost predicate IsFirst(l: seq<Entry>, key: Key, at: nat) {
    at <= |l| && (at < |l| ==> l[at].key == key) && forall i :: 0 <= i < at ==> l[i].key != key
  }

  /** The position of the key, or the length of the list. */
  ghost function Find(l: seq<Entry>, key: Key): (at: nat)
    ensures IsFirst(l, key, at)
  {
    FirstExists(l, key);
    var at :| IsFirst(l, key, at);
    at
  }

  lemma FirstExists(l: seq<Entry>, key: Key)
    ensures exists at :: IsFirst(l, key, at)
  {
    var at := 0;
    while at < |l| && l[at].key != key
      invariant 0 <= at <= |l| && forall i :: 0 <= i < at ==> l[i].key != key
    {
      at := at + 1;
    }
    assert IsFirst(l, key, at);
  }

  ghost function Remove(l: seq<Entry>, key: Key): seq<Entry> {
    var at := Find(l, key);
    if at < |l| then l[..at] + l[at + 1..] else l
  }

  ghost function Append(l: seq<Entry>, key: Key, time: nat): seq<Entry> {
    Remove(l, key) + [Entry(key, time)]
  }

  /** `n` entries are due from the front on, and then the list ends or an entry is not due. */
  ghost predicate IsBreak(l: seq<Entry>, now: nat, n: nat) {
    n <= |l| && (n < |l| ==> l[n].time > now) && forall i :: 0 <= i < n ==> l[i].time <= now
  }

  /** How many entries the sweep fires: it walks from the front and breaks at the first entry that is not due. */
  ghost function DueCount(l: seq<Entry>, now: nat): (n: nat)
    ensures IsBreak(l, now, n)
  {
    BreakExists(l, now);
    var n :| IsBreak(l, now, n);
    n
  }

  lemma BreakExists(l: seq<Entry>, now: nat)
    ensures exists n :: IsBreak(l, now, n)
  {
    var n := 0;
    while n < |l| && l[n].time <= now
      invariant 0 <= n <= |l| && forall i :: 0 <= i < n ==> l[i].time <= now
    {
      n := n + 1;
    }
    assert IsBreak(l, now, n);
  }

  ghost function Fired(l: seq<Entry>, now: nat): (keys: seq<Key>)
    ensures |keys| == DueCount(l, now)
    ensures forall i :: 0 <= i < |keys| ==> keys[i] == l[i].key
  {
    seq(DueCount(l, now), i requires 0 <= i < DueCount(l, now) => l[i].key)
  }

  ghost function Swept(l: seq<Entry>, now: nat): seq<Entry> {
    l[DueCount(l, now)..]
  }

  // ------------------------------------------------------- the map it stands for

  ghost function Keys(l: seq<Entry>): set<Key> {
    set i | 0 <= i < |l| :: l[i].key
  }

  ghost function Deadlines(l: seq<Entry>): map<Key, nat> {
    map key | key in Keys(l) :: l[Find(l, key)].time
  }

  lemma FindOnly(l: seq<Entry>, at: nat)
    requires Distinct(l) && at < |l|
    ensures Find(l, l[at].key) == at
  {
  }

  /** In a list without repeated keys, each entry is exactly one binding of the map. */
  lemma DeadlinesAt(l: seq<Entry>)
    requires Distinct(l)
    ensures forall i :: 0 <= i < |l| ==> l[i].key in Deadlines(l) && Deadlines(l)[l[i].key] == l[i].time
    ensures forall k <- Deadlines(l) :: HasKey(l, k)
  {
    forall i | 0 <= i < |l| ensures l[i].key in Deadlines(l) && Deadlines(l)[l[i].key] == l[i].time {
      FindOnly(l, i);
    }
  }

  lemma SameBindings(l: seq<Entry>, m: map<Key, nat>)
    requires Distinct(l)
    requires forall i :: 0 <= i < |l| ==> l[i].key in m && m[l[i].key] == l[i].time
    requires forall k <- m :: HasKey(l, k)
    ensures Deadlines(l) == m
  {
    DeadlinesAt(l);
  }

  /** Where the binding of a key sits. */
  lemma Locate(l: seq<Entry>, key: Key) returns (at: nat)
    requires Distinct(l) && key in Deadlines(l)
    ensures at < |l| && l[at] == Entry(key, Deadlines(l)[key])
  {
    DeadlinesAt(l);
    assert HasKey(l, key);
    at :| at < |l| && l[at].key == key;
  }

  lemma DropShape(l: seq<Entry>, at: nat, r: seq<Entry>)
    requires Distinct(l) && at < |l| && r == l[..at] + l[at + 1..]
    ensures Distinct(r) && !HasKey(r, l[at].key)
    ensures forall i :: 0 <= i < |r| ==> r[i] == l[if i < at then i else i + 1]
  {
    assert forall i :: 0 <= i < at ==> r[i] == l[i];
    assert forall i :: at <= i < |r| ==> r[i] == l[i + 1];
  }

  lemma DropDeadlines(l: seq<Entry>, at: nat, r: seq<Entry>)
    requires Distinct(l) && at < |l| && r == l[..at] + l[at + 1..]
    ensures Distinct(r) && !HasKey(r, l[at].key) && Deadlines(r) == Deadlines(l) - {l[at].key}
  {
    var m := Deadlines(l) - {l[at].key};
    DropShape(l, at, r);
    forall i | 0 <= i < |r| ensures r[i].key in m && m[r[i].key] == r[i].time {
      DeadlinesAt(l);
      assert HasKey(r, r[i].key);
    }
    forall k <- m ensures HasKey(r, k) {
      var i := Locate(l, k);
      assert r[if i < at then i else i - 1].key == k;
    }
    SameBindings(r, m);
  }

  lemma RemoveDeadlines(l: seq<Entry>, key: Key)
    requires Distinct(l)
    ensures Distinct(Remove(l, key)) && !HasKey(Remove(l, key), key)
    ensures Deadlines(Remove(l, key)) == Deadlines(l) - {key}
  {
    var at := Find(l, key);
    if at < |l| {
      DropDeadlines(l, at, Remove(l, key));
    } else {
      DeadlinesAt(l);
    }
  }

  lemma AppendDeadlines(l: seq<Entry>, key: Key, time: nat)
    requires Distinct(l)
    ensures Distinct(Append(l, key, time))
    ensures Deadlines(Append(l, key, time)) == Deadlines(l)[key := time]
  {
    var r, a, m := Remove(l, key), Append(l, key, time), Deadlines(l)[key := time];
    RemoveDeadlines(l, key);
    assert a[..|r|] == r && a[|r|] == Entry(key, time);
    forall i | 0 <= i < |a| ensures a[i].key in m && m[a[i].key] == a[i].time {
      DeadlinesAt(r);
      assert i < |r| ==> a[i] == r[i] && HasKey(r, r[i].key);
    }
    forall k <- m ensures HasKey(a, k) {
      if k == key {
        assert a[|r|].key == k;
      } else {
        var i := Locate(r, k);
        assert a[i].key == k;
      }
    }
    SameBindings(a, m);
  }

  lemma RemoveKeys(l: seq<Entry>, key: Key)
    requires Distinct(l)
    ensures Distinct(Remove(l, key)) && Keys(Remove(l, key)) == Keys(l) - {key}
  {
    RemoveDeadlines(l, key);
    assert Deadlines(Remove(l, key)).Keys == Keys(Remove(l, key)) && Deadlines(l).Keys == Keys(l);
  }

  lemma AppendKeys(l: seq<Entry>, key: Key, time: nat)
    requires Distinct(l)
    ensures Distinct(Append(l, key, time)) && Keys(Append(l, key, time)) == Keys(l) + {key}
  {
    AppendDeadlines(l, key, time);
    assert Deadlines(Append(l, key, time)).Keys == Keys(Append(l, key, time)) && Deadlines(l).Keys == Keys(l);
  }

  lemma TailKeys(l: seq<Entry>)
    requires Distinct(l) && l != []
    ensures Distinct(l[1..]) && Keys(l[1..]) == Keys(l) - {l[0].key}
  {
    DropDeadlines(l, 0, l[1..]);
    assert Deadlines(l[1..]).Keys == Keys(l[1..]) && Deadlines(l).Keys == Keys(l);
  }

  // ------------------------------------------------------------- the sweep

  ghost function ToSet(keys: seq<Key>): set<Key> {
    set k <- keys
  }

  /** Keys whose deadline has come. */
  ghost function Due(m: map<Key, nat>, now: nat): set<Key> {
    set k <- m | m[k] <= now
  }

  ghost predicate Sorted(l: seq<Entry>) {
    forall i, j :: 0 <= i < j < |l| ==> l[i].time <= l[j].time
  }

  /** No entry that is due stands behind one that is not. */
  ghost predicate DueFirst(l: seq<Entry>, now: nat) {
    forall i, j :: 0 <= i < j < |l| && l[j].time <= now ==> l[i].time <= now
  }

  lemma FiredAt(l: seq<Entry>, now: nat, at: nat)
    requires Distinct(l) && at < |l|
    ensures l[at].key in Keys(l[..DueCount(l, now)]) <==> at < DueCount(l, now)
  {
    var n := DueCount(l, now);
    if at < n {
      assert l[..n][at].key == l[at].key;
    }
  }

  lemma FiredKeys(l: seq<Entry>, now: nat)
    ensures ToSet(Fired(l, now)) == Keys(l[..DueCount(l, now)])
  {
    var n, f := DueCount(l, now), Fired(l, now);
    forall k <- Keys(l[..n]) ensures k in ToSet(f) {
      var i :| 0 <= i < n && l[..n][i].key == k;
      assert f[i] == k;
    }
  }

  /** Cutting a prefix off the list takes exactly the prefix's keys out of the map. */
  lemma SuffixDeadlines(l: seq<Entry>, n: nat)
    requires Distinct(l) && n <= |l|
    ensures Distinct(l[n..]) && Deadlines(l[n..]) == Deadlines(l) - Keys(l[..n])
  {
    var rest, m := l[n..], Deadlines(l) - Keys(l[..n]);
    forall i | 0 <= i < |rest| ensures rest[i].key in m && m[rest[i].key] == rest[i].time {
      DeadlinesAt(l);
      assert rest[i] == l[n + i];
    }
    forall k <- m ensures HasKey(rest, k) {
      var i := Locate(l, k);
      assert i >= n;
      assert rest[i - n].key == k;
    }
    SameBindings(rest, m);
  }

  /** The sweep removes what it fires and nothing else, fires no key twice and fires only keys that are due. */
  lemma SweepDeadlines(l: seq<Entry>, now: nat)
    requires Distinct(l)
    ensures Distinct(Swept(l, now))
    ensures Deadlines(Swept(l, now)) == Deadlines(l) - ToSet(Fired(l, now))
    ensures ToSet(Fired(l, now)) <= Due(Deadlines(l), now)
    ensures forall i, j :: 0 <= i < j < |Fired(l, now)| ==> Fired(l, now)[i] != Fired(l, now)[j]
  {
    SuffixDeadlines(l, DueCount(l, now));
    FiredKeys(l, now);
    forall k <- ToSet(Fired(l, now)) ensures k in Due(Deadlines(l), now) {
      var i :| 0 <= i < |Fired(l, now)| && Fired(l, now)[i] == k;
      DeadlinesAt(l);
      assert l[i].key == k;
    }
  }

  /** The early exit misses no due key exactly when no due entry stands behind one that is not due. */
  lemma SweepFiresAllDue(l: seq<Entry>, now: nat)
    requires Distinct(l)
    ensures ToSet(Fired(l, now)) == Due(Deadlines(l), now) <==> DueFirst(l, now)
  {
    SweepDeadlines(l, now);
    FiredKeys(l, now);
    if DueFirst(l, now) {
      forall k <- Due(Deadlines(l), now) ensures k in ToSet(Fired(l, now)) {
        var i := Locate(l, k);
        FiredAt(l, now, i);
      }
    } else {
      var i, j :| 0 <= i < j < |l| && l[j].time <= now && l[i].time > now;
      DeadlinesAt(l);
      FiredAt(l, now, j);
    }
  }

  // ------------------------------------------------------- runs of operations

  /** One call on a TimeList, with the clock value the caller passed. */
  datatype Call = Add(key: Key, now: nat) | Del(key: Key) | Sweep(now: nat)

  ghost function ListStep(l: seq<Entry>, timeout: nat, c: Call): seq<Entry> {
    match c
    case Add(key, now) => Append(l, key, now + timeout)
    case Del(key) => Remove(l, key)
    case Sweep(now) => Swept(l, now)
  }

  ghost function ListFires(l: seq<Entry>, c: Call): seq<Key> {
    if c.Sweep? then Fired(l, c.now) else []
  }

  /** The reference: a plain map of deadlines whose sweep removes every key that is due. */
  ghost function MapStep(m: map<Key, nat>, timeout: nat, c: Call): map<Key, nat> {
    match c
    case Add(key, now) => m[key := now + timeout]
    case Del(key) => m - {key}
    case Sweep(now) => m - Due(m, now)
  }

  ghost function MapFires(m: map<Key, nat>, c: Call): set<Key> {
    if c.Sweep? then Due(m, c.now) else {}
  }

  /** The clock never runs backwards from one `add` to the next, starting from `from`. */
  ghost predicate ClockMonotone(calls: seq<Call>, from: nat) {
    if calls == [] then true
    else if calls[0].Add? then from <= calls[0].now && ClockMonotone(calls[1..], calls[0].now)
    else ClockMonotone(calls[1..], from)
  }

  /** Sorted, without repeated keys, and nothing expires later than an entry added at clock value `from` would. */
  ghost predicate Ordered(l: seq<Entry>, timeout: nat, from: nat) {
    Distinct(l) && Sorted(l) && forall i :: 0 <= i < |l| ==> l[i].time <= from + timeout
  }

  /** Each key once, earliest deadline first. */
  ghost predicate FiredInOrder(keys: seq<Key>, m: map<Key, nat>) {
    && (forall i :: 0 <= i < |keys| ==> keys[i] in m)
    && (forall i, j :: 0 <= i < j < |keys| ==> keys[i] != keys[j] && m[keys[i]] <= m[keys[j]])
  }

  lemma AppendKeepsOrder(l: seq<Entry>, timeout: nat, from: nat, key: Key, now: nat)
    requires Ordered(l, timeout, from) && from <= now
    ensures Ordered(Append(l, key, now + timeout), timeout, now)
  {
    AppendDeadlines(l, key, now + timeout);
    RemoveKeepsOrder(l, timeout, from, key);
  }

  lemma RemoveKeepsOrder(l: seq<Entry>, timeout: nat, from: nat, key: Key)
    requires Ordered(l, timeout, from)
    ensures Ordered(Remove(l, key), timeout, from)
  {
    RemoveDeadlines(l, key);
  }

  /** One call keeps the list sorted and free of repeated keys. */
  lemma StepKeepsOrder(l: seq<Entry>, timeout: nat, from: nat, c: Call)
    requires Ordered(l, timeout, from) && (c.Add? ==> from <= c.now)
    ensures Ordered(ListStep(l, timeout, c), timeout, if c.Add? then c.now else from)
  {
    match c
    case Add(key, now) => AppendKeepsOrder(l, timeout, from, key, now);
    case Del(key) => RemoveKeepsOrder(l, timeout, from, key);
    case Sweep(now) => SuffixDeadlines(l, DueCount(l, now));
  }

  lemma AddStep(l: seq<Entry>, timeout: nat, key: Key, now: nat)
    requires Distinct(l)
    ensures Deadlines(ListStep(l, timeout, Add(key, now))) == MapStep(Deadlines(l), timeout, Add(key, now))
  {
    assert ListStep(l, timeout, Add(key, now)) == Append(l, key, now + timeout);
    assert MapStep(Deadlines(l), timeout, Add(key, now)) == Deadlines(l)[key := now + timeout];
    assert Deadlines(Append(l, key, now + timeout)) == Deadlines(l)[key := now + timeout] by {
      AppendDeadlines(l, key, now + timeout);
    }
  }

  lemma DelStep(l: seq<Entry>, timeout: nat, key: Key)
    requires Distinct(l)
    ensures Deadlines(ListStep(l, timeout, Del(key))) == MapStep(Deadlines(l), timeout, Del(key))
  {
    RemoveDeadlines(l, key);
  }

  lemma SweepStep(l: seq<Entry>, timeout: nat, now: nat)
    requires Distinct(l) && Sorted(l)
    ensures Deadlines(ListStep(l, timeout, Sweep(now))) == MapStep(Deadlines(l), timeout, Sweep(now))
  {
    SweepDeadlines(l, now);
    SortedFiresAllDue(l, now);
  }

  /** One call on a sorted list does to the map of deadlines what the reference does. */
  lemma StepDeadlines(l: seq<Entry>, timeout: nat, c: Call)
    requires Distinct(l) && Sorted(l)
    ensures Deadlines(ListStep(l, timeout, c)) == MapStep(Deadlines(l), timeout, c)
  {
    match c
    case Add(key, now) => AddStep(l, timeout, key, now);
    case Del(key) => DelStep(l, timeout, key);
    case Sweep(now) => SweepStep(l, timeout, now);
  }

  lemma SortedFiresAllDue(l: seq<Entry>, now: nat)
    requires Distinct(l) && Sorted(l)
    ensures ToSet(Fired(l, now)) == Due(Deadlines(l), now)
  {
    SweepFiresAllDue(l, now);
  }

  /** One call on a sorted list fires the due keys, each once, earliest deadline first. */
  lemma StepFires(l: seq<Entry>, c: Call)
    requires Distinct(l) && Sorted(l)
    ensures ToSet(ListFires(l, c)) == MapFires(Deadlines(l), c)
    ensures FiredInOrder(ListFires(l, c), Deadlines(l))
  {
    if c.Sweep? {
      SortedFiresAllDue(l, c.now);
      DeadlinesAt(l);
    }
  }

  /** Every call of the run, on the list and on the map, does the same thing. */
  ghost predicate RunsAgree(l: seq<Entry>, m: map<Key, nat>, timeout: nat, calls: seq<Call>)
    decreases |calls|
  {
    && Deadlines(l) == m
    && (calls != [] ==>
          && ToSet(ListFires(l, calls[0])) == MapFires(m, calls[0])
          && FiredInOrder(ListFires(l, calls[0]), m)
          && RunsAgree(ListStep(l, timeout, calls[0]), MapStep(m, timeout, calls[0]), timeout, calls[1..]))
  }

  /**
   TimeList refines a map from key to deadline: over every run of add, del and timeout calls with a fixed timeout
   and a clock that does not run backwards between adds, map and list agree after every call, and every sweep
   fires exactly the keys whose deadline has come, each once, in deadline order.
   */
  lemma {:induction false} TimeListRefinesMap(l: seq<Entry>, timeout: nat, from: nat, calls: seq<Call>)
    requires Ordered(l, timeout, from) && ClockMonotone(calls, from)
    ensures RunsAgree(l, Deadlines(l), timeout, calls)
    decreases |calls|
  {
    if calls != [] {
      var c := calls[0];
      StepKeepsOrder(l, timeout, from, c);
      StepDeadlines(l, timeout, c);
      StepFires(l, c);
      TimeListRefinesMap(ListStep(l, timeout, c), timeout, if c.Add? then c.now else from, calls[1..]);
    }
  }

  // --------------------------------------------------------------- the class

  /** The list elements the index points at. */
  ghost function Indexed(index: map<Key, Entry>): set<Entry> {
    set k <- index :: index[k]
  }

  /** m_map and m_list are in bijection: every list element is the target of exactly its own key's iterator. */
  ghost predicate Bijective(list: seq<Entry>, index: map<Key, Entry>) {
    (forall k <- index :: index[k].key == k) && multiset(list) == multiset(Indexed(index))
  }

  lemma BijectionFacts(list: seq<Entry>, index: map<Key, Entry>)
    requires Bijective(list, index)
    ensures Distinct(list)
    ensures forall k <- index :: index[k] in list
    ensures forall i :: 0 <= i < |list| ==> list[i].key in index && index[list[i].key] == list[i]
  {
    forall i | 0 <= i < |list| ensures list[i] in Indexed(index) {
      assert list[i] in multiset(list);
    }
    forall i, j | 0 <= i < j < |list| ensures list[i].key != list[j].key {
      assert list == list[..j] + [list[j]] + list[j + 1..];
      assert multiset(list) == multiset(list[..j]) + multiset{list[j]} + multiset(list[j + 1..]);
      assert list[i] in multiset(list[..j]) by { assert list[..j][i] == list[i]; }
      assert multiset(list)[list[j]] <= 1;
    }
    forall k <- index ensures index[k] in list {
      assert index[k] in multiset(list);
    }
  }

  /** std::list::erase through an iterator. */
  function Erase(list: seq<Entry>, e: Entry): seq<Entry>
    requires e in list
  {
    if list[0] == e then list[1..] else [list[0]] + Erase(list[1..], e)
  }

  lemma {:induction false} EraseAt(list: seq<Entry>, at: nat)
    requires at < |list| && forall i :: 0 <= i < at ==> list[i] != list[at]
    ensures Erase(list, list[at]) == list[..at] + list[at + 1..]
    decreases at
  {
    if at > 0 {
      EraseAt(list[1..], at - 1);
      assert [list[0]] + (list[1..][..at - 1] + list[1..][at..]) == list[..at] + list[at + 1..];
    }
  }

  lemma EraseIsRemove(list: seq<Entry>, e: Entry)
    requires Distinct(list) && e in list
    ensures Erase(list, e) == Remove(list, e.key)
    ensures multiset(list) == multiset(Erase(list, e)) + multiset{e}
  {
    var at :| 0 <= at < |list| && list[at] == e;
    var rest := list[..at] + list[at + 1..];
    assert Remove(list, e.key) == rest by { FindOnly(list, at); }
    assert Erase(list, e) == rest by { EraseAt(list, at); }
    TakeOut(list, at);
  }

  lemma TakeOut(list: seq<Entry>, at: nat)
    requires at < |list|
    ensures multiset(list) == multiset(list[..at] + list[at + 1..]) + multiset{list[at]}
  {
    assert list == list[..at] + [list[at]] + list[at + 1..];
  }

  lemma IndexedWithout(index: map<Key, Entry>, key: Key)
    requires key in index && forall k <- index :: index[k].key == k
    ensures multiset(Indexed(index)) == multiset(Indexed(index - {key})) + multiset{index[key]}
  {
    var fewer := index - {key};
    forall e <- Indexed(index) ensures e in Indexed(fewer) || e == index[key] {
      assert index[e.key] == e;
      assert e.key != key ==> fewer[e.key] == e;
    }
    assert Indexed(index) == Indexed(fewer) + {index[key]};
  }

  lemma Cancel(a: multiset<Entry>, b: multiset<Entry>, whole: multiset<Entry>, indexed: multiset<Entry>, e: Entry)
    requires whole == a + multiset{e} && indexed == b + multiset{e} && whole == indexed
    ensures a == b
  {
    assert a == whole - multiset{e} && b == indexed - multiset{e};
  }

  lemma EraseKeeps(list: seq<Entry>, index: map<Key, Entry>, key: Key)
    requires Bijective(list, index) && key in index
    ensures index[key] in list
    ensures Bijective(Erase(list, index[key]), index - {key})
    ensures Erase(list, index[key]) == Remove(list, key)
  {
    BijectionFacts(list, index);
    EraseIsRemove(list, index[key]);
    IndexedWithout(index, key);
    Cancel(multiset(Erase(list, index[key])), multiset(Indexed(index - {key})),
           multiset(list), multiset(Indexed(index)), index[key]);
  }

  lemma AppendKeeps(list: seq<Entry>, index: map<Key, Entry>, e: Entry)
    requires Bijective(list, index) && e.key !in index
    ensures Bijective(list + [e], index[e.key := e])
  {
    IndexedWithout(index[e.key := e], e.key);
    assert index[e.key := e] - {e.key} == index;
  }

  lemma AbsentKey(list: seq<Entry>, index: map<Key, Entry>, key: Key)
    requires Bijective(list, index) && key !in index
    ensures Remove(list, key) == list
  {
    BijectionFacts(list, index);
  }

  lemma FrontKeeps(list: seq<Entry>, index: map<Key, Entry>)
    requires Bijective(list, index) && list != []
    ensures Bijective(list[1..], index - {list[0].key})
  {
    BijectionFacts(list, index);
    EraseKeeps(list, index, list[0].key);
  }

  class TimeList {
    var timeout: nat
    /** m_map: for each key the list element its iterator points at. */
    var index: map<Key, Entry>
    /** m_list. */
    var list: seq<Entry>

    ghost predicate Valid()
      reads this
    {
      Bijective(list, index)
    }

    constructor (timeout: nat)
      ensures Valid() && list == [] && this.timeout == timeout
    {
      this.timeout := timeout;
      index, list := map[], [];
    }

    method Add(key: Key, now: nat)
      requires Valid()
      modifies this`list, this`index
      ensures Valid() && list == Append(old(list), key, now + timeout)
    {
      Del(key);
      var e := Entry(key, now + timeout);
      AppendKeeps(list, index, e);
      list := list + [e];
      index := index[key := e];
    }

    method Del(key: Key)
      requires Valid()
      modifies this`list, this`index
      ensures Valid() && key !in index && list == Remove(old(list), key)
    {
      if key in index {
        EraseKeeps(list, index, key);
        list := Erase(list, index[key]);
        index := index - {key};
      } else {
        AbsentKey(list, index, key);
      }
    }

    /** One turn of the sweep loop: the front entry fires and leaves both structures. */
    method FireFront() returns (key: Key)
      requires Valid() && list != []
      modifies this`list, this`index
      ensures Valid() && key == old(list)[0].key && list == old(list)[1..]
    {
      FrontKeeps(list, index);
      key := list[0].key;
      index := index - {key};
      list := list[1..];
    }

    /** `timeout`: fires from the front until an entry is not due. Callbacks do not re-enter the list. */
    method Timeout(now: nat) returns (fired: seq<Key>)
      requires Valid()
      modifies this`list, this`index
      ensures Valid() && list == Swept(old(list), now)
      ensures fired == Fired(old(list), now)
    {
      ghost var was := list;
      fired := [];
      while list != [] && now >= list[0].time
        invariant Valid() && FiredSoFar(was, now, fired) && list == was[|fired|..]
        decreases |list|
      {
        FireOne(was, now, fired);
        var key := FireFront();
        fired := fired + [key];
      }
      SweepEnds(was, now, fired);
    }
  }

  ghost predicate FiredSoFar(list: seq<Entry>, now: nat, fired: seq<Key>) {
    && |fired| <= |list|
    && forall i :: 0 <= i < |fired| ==> fired[i] == list[i].key && list[i].time <= now
  }

  lemma FireOne(list: seq<Entry>, now: nat, fired: seq<Key>)
    requires FiredSoFar(list, now, fired) && |fired| < |list| && list[|fired|..][0].time <= now
    ensures FiredSoFar(list, now, fired + [list[|fired|..][0].key])
    ensures list[|fired|..][1..] == list[|fired| + 1..]
  {
  }

  lemma SweepEnds(list: seq<Entry>, now: nat, fired: seq<Key>)
    requires FiredSoFar(list, now, fired)
    requires list[|fired|..] != [] ==> list[|fired|..][0].time > now
    ensures fired == Fired(list, now) && list[|fired|..] == Swept(list, now)
  {
    assert IsBreak(list, now, |fired|);
    assert DueCount(list, now) == |fired|;
  }
}
