/** StormListener (source/framework/storm_listener.cpp) as a user of two TimeLists, over every run of its events. */
module Listener {
  import opened Bytes
  import opened TimeLists

  datatype Config = Config(maxConnections: nat, emptyConnTimeOut: nat, keepAliveTime: nat)

  /**
   `open` are the connection ids between accept and close, `empty` is m_conList, `alive` m_timelist, and `closes` the
   close commands this listener has queued in the socket loop.
   */
  datatype State = State(clock: nat, open: set<nat>, empty: seq<Entry>, alive: seq<Entry>, closes: seq<nat>)

  const INITIAL := State(0, {}, [], [], [])

  datatype Event =
    | Accept(id: nat, now: nat)
    | Packet(id: nat, now: nat)
    | Closed(id: nat)
    | RunClose
    | Update(now: nat)

  ghost predicate Enabled(s: State, e: Event) {
    match e
    case Accept(id, now) => id !in s.open && s.clock <= now
    case Packet(id, now) => id in s.open && s.clock <= now
    case Closed(id) => id in s.open
    case RunClose => s.closes != []
    case Update(now) => s.clock <= now
  }

  ghost function OnAccept(c: Config, s: State, id: nat, now: nat): State {
    var t := s.(open := s.open + {id}, clock := now);
    if |s.alive| >= c.maxConnections then t.(closes := s.closes + [id])
    else t.(empty := Append(s.empty, id, now + c.emptyConnTimeOut))
  }

  ghost function OnPacket(c: Config, s: State, id: nat, now: nat): State {
    s.(clock := now, empty := Remove(s.empty, id), alive := Append(s.alive, id, now + c.keepAliveTime))
  }

  ghost function OnClose(s: State, id: nat): State {
    s.(open := s.open - {id}, empty := Remove(s.empty, id), alive := Remove(s.alive, id))
  }

  ghost function UpdateNet(s: State, now: nat): State {
    s.(clock := now, empty := Swept(s.empty, now), alive := Swept(s.alive, now),
       closes := s.closes + Fired(s.empty, now) + Fired(s.alive, now))
  }

  ghost function Apply(c: Config, s: State, e: Event): State
    requires Enabled(s, e)
  {
    match e
    case Accept(id, now) => OnAccept(c, s, id, now)
    case Packet(id, now) => OnPacket(c, s, id, now)
    case Closed(id) => OnClose(s, id)
    case RunClose =>
      var t := s.(closes := s.closes[1..]);
      if s.closes[0] in s.open then OnClose(t, s.closes[0]) else t
    case Update(now) => UpdateNet(s, now)
  }

  ghost predicate Legal(c: Config, s: State, run: seq<Event>)
    decreases |run|
  {
    run == [] || (Enabled(s, run[0]) && Legal(c, Apply(c, s, run[0]), run[1..]))
  }

  ghost function Final(c: Config, s: State, run: seq<Event>): State
    requires Legal(c, s, run)
    decreases |run|
  {
    if run == [] then s else Final(c, Apply(c, s, run[0]), run[1..])
  }

  // -------------------------------------------------------------- membership

  /** Each open connection is in exactly one list, or its close is queued; nothing else is in the lists. */
  ghost predicate Watching(s: State) {
    && Distinct(s.empty) && Distinct(s.alive)
    && Keys(s.empty) !! Keys(s.alive)
    && Keys(s.empty) + Keys(s.alive) <= s.open
    && s.open <= Keys(s.empty) + Keys(s.alive) + ToSet(s.closes)
  }

  lemma SnocSet(keys: seq<Key>, key: Key)
    ensures ToSet(keys + [key]) == ToSet(keys) + {key}
  {
    assert (keys + [key])[|keys|] == key;
    assert forall k <- keys :: k in keys + [key];
  }

  lemma AcceptKeeps(c: Config, s: State, id: nat, now: nat)
    requires Watching(s) && id !in s.open
    ensures Watching(OnAccept(c, s, id, now))
  {
    if |s.alive| >= c.maxConnections {
      SnocSet(s.closes, id);
    } else {
      AppendKeys(s.empty, id, now + c.emptyConnTimeOut);
    }
  }

  lemma PacketKeeps(c: Config, s: State, id: nat, now: nat)
    requires Watching(s) && id in s.open
    ensures Watching(OnPacket(c, s, id, now))
  {
    var t := OnPacket(c, s, id, now);
    assert Distinct(t.empty) && Keys(t.empty) == Keys(s.empty) - {id} by {
      RemoveKeys(s.empty, id);
    }
    assert Distinct(t.alive) && Keys(t.alive) == Keys(s.alive) + {id} by {
      AppendKeys(s.alive, id, now + c.keepAliveTime);
    }
  }

  lemma CloseKeeps(s: State, id: nat)
    requires Distinct(s.empty) && Distinct(s.alive) && Keys(s.empty) !! Keys(s.alive)
    requires Keys(s.empty) + Keys(s.alive) <= s.open
    requires s.open - {id} <= Keys(s.empty) + Keys(s.alive) + ToSet(s.closes)
    ensures Watching(OnClose(s, id))
  {
    RemoveKeys(s.empty, id);
    RemoveKeys(s.alive, id);
  }

  lemma SweptKeys(l: seq<Entry>, now: nat)
    requires Distinct(l)
    ensures Distinct(Swept(l, now)) && Keys(Swept(l, now)) == Keys(l) - ToSet(Fired(l, now))
  {
    SweepDeadlines(l, now);
    assert Deadlines(Swept(l, now)).Keys == Keys(Swept(l, now)) && Deadlines(l).Keys == Keys(l);
  }

  lemma ConcatSet(a: seq<Key>, b: seq<Key>)
    ensures ToSet(a + b) == ToSet(a) + ToSet(b)
  {
    assert forall k <- a :: k in a + b;
    assert forall k <- b :: k in a + b;
  }

  lemma UpdateKeeps(s: State, now: nat)
    requires Watching(s)
    ensures Watching(UpdateNet(s, now))
  {
    var first, second := Fired(s.empty, now), Fired(s.alive, now);
    SweptKeys(s.empty, now);
    SweptKeys(s.alive, now);
    ConcatSet(s.closes, first);
    ConcatSet(s.closes + first, second);
  }

  lemma StepKeeps(c: Config, s: State, e: Event)
    requires Watching(s) && Enabled(s, e)
    ensures Watching(Apply(c, s, e))
  {
    match e
    case Accept(id, now) => AcceptKeeps(c, s, id, now);
    case Packet(id, now) => PacketKeeps(c, s, id, now);
    case Closed(id) => CloseKeeps(s, id);
    case RunClose =>
      var id, t := s.closes[0], s.(closes := s.closes[1..]);
      assert s.closes == [id] + t.closes;
      ConcatSet([id], t.closes);
      if id in s.open {
        CloseKeeps(t, id);
      }
    case Update(now) => UpdateKeeps(s, now);
  }

  lemma {:induction false} RunKeeps(c: Config, s: State, run: seq<Event>)
    requires Watching(s) && Legal(c, s, run)
    ensures Watching(Final(c, s, run))
    decreases |run|
  {
    if run != [] {
      StepKeeps(c, s, run[0]);
      RunKeeps(c, Apply(c, s, run[0]), run[1..]);
    }
  }

  /**
   Over every run of accept, packet, close, close-command and sweep events: the two lists are disjoint and hold only
   open connections (so a closed id is in neither), and every open connection is in one of them or has a close command
   queued, so none escapes the timeouts.
   */
  lemma ConnectionsWatched(c: Config, run: seq<Event>)
    requires Legal(c, INITIAL, run)
    ensures var s := Final(c, INITIAL, run);
            && Keys(s.empty) !! Keys(s.alive)
            && Keys(s.empty) + Keys(s.alive) <= s.open
            && s.open <= Keys(s.empty) + Keys(s.alive) + ToSet(s.closes)
  {
    RunKeeps(c, INITIAL, run);
  }

  // ------------------------------------------------------------------ timing

  ghost predicate BothOrdered(c: Config, s: State) {
    Ordered(s.empty, c.emptyConnTimeOut, s.clock) && Ordered(s.alive, c.keepAliveTime, s.clock)
  }

  lemma LaterStillOrdered(l: seq<Entry>, timeout: nat, from: nat, now: nat)
    requires Ordered(l, timeout, from) && from <= now
    ensures Ordered(l, timeout, now)
  {
  }

  lemma StepKeepsOrder(c: Config, s: State, e: Event)
    requires BothOrdered(c, s) && Enabled(s, e)
    ensures BothOrdered(c, Apply(c, s, e))
  {
    match e
    case Accept(id, now) => AcceptKeepsOrder(c, s, id, now);
    case Packet(id, now) => PacketKeepsOrder(c, s, id, now);
    case Closed(id) => CloseKeepsOrder(c, s, id);
    case RunClose => CloseKeepsOrder(c, s, s.closes[0]);
    case Update(now) => UpdateKeepsOrder(c, s, now);
  }

  lemma AcceptKeepsOrder(c: Config, s: State, id: nat, now: nat)
    requires BothOrdered(c, s) && s.clock <= now
    ensures BothOrdered(c, OnAccept(c, s, id, now))
  {
    assert Ordered(s.alive, c.keepAliveTime, now) by {
      LaterStillOrdered(s.alive, c.keepAliveTime, s.clock, now);
    }
    if |s.alive| >= c.maxConnections {
      LaterStillOrdered(s.empty, c.emptyConnTimeOut, s.clock, now);
    } else {
      AppendKeepsOrder(s.empty, c.emptyConnTimeOut, s.clock, id, now);
    }
  }

  lemma PacketKeepsOrder(c: Config, s: State, id: nat, now: nat)
    requires BothOrdered(c, s) && s.clock <= now
    ensures BothOrdered(c, OnPacket(c, s, id, now))
  {
    var t := OnPacket(c, s, id, now);
    assert Ordered(t.empty, c.emptyConnTimeOut, now) by {
      RemoveKeepsOrder(s.empty, c.emptyConnTimeOut, s.clock, id);
      LaterStillOrdered(Remove(s.empty, id), c.emptyConnTimeOut, s.clock, now);
    }
    AppendKeepsOrder(s.alive, c.keepAliveTime, s.clock, id, now);
  }

  lemma UpdateKeepsOrder(c: Config, s: State, now: nat)
    requires BothOrdered(c, s) && s.clock <= now
    ensures BothOrdered(c, UpdateNet(s, now))
  {
    SuffixOrdered(s.empty, c.emptyConnTimeOut, s.clock, DueCount(s.empty, now), now);
    SuffixOrdered(s.alive, c.keepAliveTime, s.clock, DueCount(s.alive, now), now);
  }

  lemma CloseKeepsOrder(c: Config, s: State, id: nat)
    requires BothOrdered(c, s)
    ensures BothOrdered(c, OnClose(s, id))
  {
    RemoveKeepsOrder(s.empty, c.emptyConnTimeOut, s.clock, id);
    RemoveKeepsOrder(s.alive, c.keepAliveTime, s.clock, id);
  }

  lemma SuffixOrdered(l: seq<Entry>, timeout: nat, from: nat, n: nat, now: nat)
    requires Ordered(l, timeout, from) && n <= |l| && from <= now
    ensures Ordered(l[n..], timeout, now)
  {
  }

  lemma {:induction false} RunKeepsOrder(c: Config, s: State, run: seq<Event>)
    requires BothOrdered(c, s) && Legal(c, s, run)
    ensures BothOrdered(c, Final(c, s, run))
    decreases |run|
  {
    if run != [] {
      StepKeepsOrder(c, s, run[0]);
      RunKeepsOrder(c, Apply(c, s, run[0]), run[1..]);
    }
  }

  /** After a sweep at `now`, no connection that is still listed is due: every silent one has its close queued. */
  lemma SweepLeavesNoneDue(c: Config, run: seq<Event>, now: nat, i: nat)
    requires Legal(c, INITIAL, run) && Enabled(Final(c, INITIAL, run), Update(now))
    ensures var t := Apply(c, Final(c, INITIAL, run), Update(now));
            (i < |t.empty| ==> t.empty[i].time > now) && (i < |t.alive| ==> t.alive[i].time > now)
  {
    RunKeepsOrder(c, INITIAL, run);
    var s := Final(c, INITIAL, run);
    RestNotDue(s.empty, now, i);
    RestNotDue(s.alive, now, i);
  }

  lemma RestNotDue(l: seq<Entry>, now: nat, i: nat)
    requires Sorted(l)
    ensures i < |Swept(l, now)| ==> Swept(l, now)[i].time > now
  {
  }

  // ---------------------------------------------------- the lists as plain maps

  lemma {:induction false} AsManyKeys(l: seq<Entry>)
    requires Distinct(l)
    ensures |Keys(l)| == |l|
  {
    if l == [] {
      assert Keys(l) == {};
    } else {
      AsManyKeys(l[1..]);
      assert l == [l[0]] + l[1..];
      assert Keys(l) == Keys(l[1..]) + {l[0].key};
      assert l[0].key !in Keys(l[1..]);
    }
  }

  ghost function DeadlineOf(l: seq<Entry>, k: nat): Option<nat> {
    var at := Find(l, k);
    if at < |l| then Some(l[at].time) else None
  }

  predicate IsDue(deadline: Option<nat>, now: nat) {
    deadline.Some? && deadline.value <= now
  }

  lemma OnlyDeadline(l: seq<Entry>, at: nat)
    requires Distinct(l) && at < |l|
    ensures DeadlineOf(l, l[at].key) == Some(l[at].time)
  {
  }

  lemma RemoveAt(l: seq<Entry>, id: nat, k: nat)
    requires Distinct(l)
    ensures DeadlineOf(Remove(l, id), k) == if k == id then None else DeadlineOf(l, k)
  {
    var r, at, here := Remove(l, id), Find(l, id), Find(l, k);
    assert Distinct(r) by {
      RemoveKeys(l, id);
    }
    if at < |l| {
      assert forall i :: 0 <= i < at ==> r[i] == l[i];
      assert forall i :: at <= i < |r| ==> r[i] == l[i + 1];
      if here < |l| && k != id {
        OnlyDeadline(r, if here < at then here else here - 1);
      }
    }
  }

  lemma AppendAt(l: seq<Entry>, id: nat, time: nat, k: nat)
    requires Distinct(l)
    ensures DeadlineOf(Append(l, id, time), k) == if k == id then Some(time) else DeadlineOf(l, k)
  {
    var r, a := Remove(l, id), Append(l, id, time);
    RemoveAt(l, id, k);
    assert Distinct(a) by {
      AppendKeys(l, id, time);
    }
    assert forall i :: 0 <= i < |r| ==> a[i] == r[i];
    if k == id {
      OnlyDeadline(a, |r|);
    } else if Find(r, k) < |r| {
      OnlyDeadline(a, Find(r, k));
    }
  }

  lemma SweptAt(l: seq<Entry>, timeout: nat, from: nat, now: nat, k: nat)
    requires Ordered(l, timeout, from)
    ensures var was := DeadlineOf(l, k);
            && DeadlineOf(Swept(l, now), k) == (if IsDue(was, now) then None else was)
            && (k in Fired(l, now) <==> IsDue(was, now))
  {
    var n, at, rest := DueCount(l, now), Find(l, k), Swept(l, now);
    assert forall i :: 0 <= i < |rest| ==> rest[i] == l[n + i];
    if at < n {
      assert Fired(l, now)[at] == k;
    } else if at < |l| {
      OnlyDeadline(rest, at - n);
    }
  }

  /** What one event does to the deadlines of connection `k`: none in a list it is not in. */
  ghost predicate Effect(c: Config, s: State, e: Event, t: State, k: nat) {
    var empty, alive := DeadlineOf(s.empty, k), DeadlineOf(s.alive, k);
    var nowEmpty, nowAlive := DeadlineOf(t.empty, k), DeadlineOf(t.alive, k);
    match e
    case Accept(id, now) =>
      && (|Keys(s.alive)| >= c.maxConnections ==>
            nowEmpty == empty && nowAlive == alive && t.closes == s.closes + [id])
      && (|Keys(s.alive)| < c.maxConnections ==>
            && nowEmpty == (if k == id then Some(now + c.emptyConnTimeOut) else empty) && nowAlive == alive
            && t.closes == s.closes)
    case Packet(id, now) =>
      && nowEmpty == (if k == id then None else empty)
      && nowAlive == (if k == id then Some(now + c.keepAliveTime) else alive) && t.closes == s.closes
    case Closed(id) =>
      && nowEmpty == (if k == id then None else empty) && nowAlive == (if k == id then None else alive)
      && t.closes == s.closes
    case RunClose =>
      && s.closes != [] && t.closes == s.closes[1..]
      && nowEmpty == (if k == s.closes[0] then None else empty)
      && nowAlive == (if k == s.closes[0] then None else alive)
    case Update(now) =>
      && nowEmpty == (if IsDue(empty, now) then None else empty)
      && nowAlive == (if IsDue(alive, now) then None else alive)
      && s.closes <= t.closes && (k in t.closes[|s.closes|..] <==> IsDue(empty, now) || IsDue(alive, now))
  }

  lemma AcceptEffect(c: Config, s: State, id: nat, now: nat, k: nat)
    requires Distinct(s.empty) && Distinct(s.alive)
    ensures Effect(c, s, Accept(id, now), OnAccept(c, s, id, now), k)
  {
    AsManyKeys(s.alive);
    if |s.alive| < c.maxConnections {
      AppendAt(s.empty, id, now + c.emptyConnTimeOut, k);
    }
  }

  lemma PacketEffect(c: Config, s: State, id: nat, now: nat, k: nat)
    requires Distinct(s.empty) && Distinct(s.alive)
    ensures Effect(c, s, Packet(id, now), OnPacket(c, s, id, now), k)
  {
    var t := OnPacket(c, s, id, now);
    assert DeadlineOf(t.empty, k) == if k == id then None else DeadlineOf(s.empty, k) by {
      RemoveAt(s.empty, id, k);
    }
    assert DeadlineOf(t.alive, k) == if k == id then Some(now + c.keepAliveTime) else DeadlineOf(s.alive, k) by {
      AppendAt(s.alive, id, now + c.keepAliveTime, k);
    }
  }

  lemma CloseEffect(s: State, id: nat, k: nat)
    requires Distinct(s.empty) && Distinct(s.alive)
    ensures DeadlineOf(OnClose(s, id).empty, k) == if k == id then None else DeadlineOf(s.empty, k)
    ensures DeadlineOf(OnClose(s, id).alive, k) == if k == id then None else DeadlineOf(s.alive, k)
  {
    RemoveAt(s.empty, id, k);
    RemoveAt(s.alive, id, k);
  }

  lemma UpdateEffect(c: Config, s: State, now: nat, k: nat)
    requires BothOrdered(c, s)
    ensures Effect(c, s, Update(now), UpdateNet(s, now), k)
  {
    SweptAt(s.empty, c.emptyConnTimeOut, s.clock, now, k);
    SweptAt(s.alive, c.keepAliveTime, s.clock, now, k);
    var first, second := Fired(s.empty, now), Fired(s.alive, now);
    assert (s.closes + first + second)[|s.closes|..] == first + second;
  }

  lemma EventEffect(c: Config, s: State, e: Event, k: nat)
    requires Watching(s) && BothOrdered(c, s) && Enabled(s, e)
    ensures Effect(c, s, e, Apply(c, s, e), k)
  {
    match e
    case Accept(id, now) => AcceptEffect(c, s, id, now, k);
    case Packet(id, now) => PacketEffect(c, s, id, now, k);
    case Closed(id) => CloseEffect(s, id, k);
    case RunClose => CloseEffect(s, s.closes[0], k);
    case Update(now) => UpdateEffect(c, s, now, k);
  }

  /**
   In every reachable state each event does to the two lists what it should do to two plain maps of deadlines. Above
   all a connection is turned away if and only if there are as many keep-alive connections as allowed, and a sweep
   queues a close for exactly the connections whose deadline has come.
   */
  lemma ListsAreMaps(c: Config, run: seq<Event>, e: Event, k: nat)
    requires Legal(c, INITIAL, run) && Enabled(Final(c, INITIAL, run), e)
    ensures var s := Final(c, INITIAL, run); Effect(c, s, e, Apply(c, s, e), k)
  {
    RunKeeps(c, INITIAL, run);
    RunKeepsOrder(c, INITIAL, run);
    EventEffect(c, Final(c, INITIAL, run), e, k);
  }

  // --------------------------------------------------------------- the class

  class StormListener {
    const config: Config
    const conList: TimeList
    const timelist: TimeList
    /** Close commands pushed to the socket loop, oldest first. */
    var closes: seq<nat>

    ghost predicate Valid()
      reads this, conList, timelist
    {
      && conList.Valid() && timelist.Valid() && conList != timelist
      && conList.timeout == config.emptyConnTimeOut && timelist.timeout == config.keepAliveTime
    }

    ghost function Abstract(clock: nat, open: set<nat>): State
      reads this, conList, timelist
    {
      State(clock, open, conList.list, timelist.list, closes)
    }

    constructor (config: Config)
      ensures Valid() && fresh(conList) && fresh(timelist) && Abstract(0, {}) == INITIAL
    {
      this.config := config;
      conList := new TimeList(config.emptyConnTimeOut);
      timelist := new TimeList(config.keepAliveTime);
      closes := [];
    }

    method Accepted(id: nat, now: nat, ghost clock: nat, ghost open: set<nat>)
      requires Valid()
      modifies this, conList, timelist
      ensures Valid() && Abstract(now, open + {id}) == OnAccept(config, old(Abstract(clock, open)), id, now)
    {
      if |timelist.list| >= config.maxConnections {
        closes := closes + [id];
      } else {
        conList.Add(id, now);
      }
    }

    method GotPacket(id: nat, now: nat, ghost clock: nat, ghost open: set<nat>)
      requires Valid()
      modifies this, conList, timelist
      ensures Valid() && Abstract(now, open) == OnPacket(config, old(Abstract(clock, open)), id, now)
    {
      conList.Del(id);
      timelist.Add(id, now);
    }

    method SocketClosed(id: nat, ghost clock: nat, ghost open: set<nat>)
      requires Valid()
      modifies this, conList, timelist
      ensures Valid() && Abstract(clock, open - {id}) == OnClose(old(Abstract(clock, open)), id)
    {
      conList.Del(id);
      timelist.Del(id);
    }

    method Tick(now: nat, ghost clock: nat, ghost open: set<nat>)
      requires Valid()
      modifies this, conList, timelist
      ensures Valid() && Abstract(now, open) == UpdateNet(old(Abstract(clock, open)), now)
    {
      var idle := conList.Timeout(now);
      closes := closes + idle;
      var silent := timelist.Timeout(now);
      closes := closes + silent;
    }
  }
}
