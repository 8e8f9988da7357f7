/** Timer of source/util/util_timer.cpp: a multimap ordered by expiry and a hash index over the same nodes. */
module Timers {
  import opened Bytes

  /** A TimerNode; the node object itself is identified by its id. */
  datatype Node = Node(expire: nat, duration: nat, repeat: bool)

  /** An element of m_nodes: the key it is filed under and the node it points to. */
  datatype Slot = Slot(key: nat, id: nat)

  ghost predicate Sorted(nodes: seq<Slot>) {
    forall i, j :: 0 <= i < j < |nodes| ==> nodes[i].key <= nodes[j].key
  }

  /** Where each node of the hash index must be filed. */
  ghost function Filed(search: map<nat, Node>): set<Slot> {
    set id <- search :: Slot(search[id].expire, id)
  }

  /** The two indexes hold the same nodes: `nodes` and `waiting` together file every node of `search` exactly once. */
  ghost predicate Agree(nodes: seq<Slot>, waiting: seq<Slot>, search: map<nat, Node>) {
    Sorted(nodes) && multiset(nodes) + multiset(waiting) == multiset(Filed(search))
  }

  // ---------------------------------------------------------- the reference

  ghost function Due(search: map<nat, Node>, ms: nat): set<nat> {
    set id <- search | search[id].expire <= ms
  }

  /** The nodes in `done` have fired at `ms`: one-shots are gone, repeaters are due again `duration` later. */
  ghost function Advance(search: map<nat, Node>, done: set<nat>, ms: nat): map<nat, Node> {
    map id | id in search && (id in done ==> search[id].repeat) ::
      if id in done then search[id].(expire := ms + search[id].duration) else search[id]
  }

  // ----------------------------------------------------------------- lemmas

  lemma FiledAdd(search: map<nat, Node>, id: nat, node: Node)
    requires id !in search
    ensures multiset(Filed(search[id := node])) == multiset(Filed(search)) + multiset{Slot(node.expire, id)}
  {
    var more := search[id := node];
    forall x <- Filed(search) ensures x in Filed(more) {
      assert more[x.id] == search[x.id];
    }
    assert Slot(more[id].expire, id) in Filed(more);
    assert Filed(more) == Filed(search) + {Slot(node.expire, id)};
  }

  lemma FiledRemove(search: map<nat, Node>, id: nat)
    requires id in search
    ensures multiset(Filed(search)) == multiset(Filed(search - {id})) + multiset{Slot(search[id].expire, id)}
  {
    FiledAdd(search - {id}, id, search[id]);
    assert (search - {id})[id := search[id]] == search;
  }

  /** Positions of a multimap: before `at` nothing is later, from `at` on everything is. */
  method UpperBound(nodes: seq<Slot>, key: nat) returns (at: nat)
    requires Sorted(nodes)
    ensures at <= |nodes|
    ensures forall i :: 0 <= i < at ==> nodes[i].key <= key
    ensures forall i :: at <= i < |nodes| ==> nodes[i].key > key
  {
    at := 0;
    while at < |nodes| && nodes[at].key <= key
      invariant 0 <= at <= |nodes| && forall i :: 0 <= i < at ==> nodes[i].key <= key
    {
      at := at + 1;
    }
  }

  lemma InsertSorted(nodes: seq<Slot>, at: nat, slot: Slot)
    requires Sorted(nodes) && at <= |nodes|
    requires forall i :: 0 <= i < at ==> nodes[i].key <= slot.key
    requires forall i :: at <= i < |nodes| ==> nodes[i].key > slot.key
    ensures Sorted(nodes[..at] + [slot] + nodes[at..])
    ensures multiset(nodes[..at] + [slot] + nodes[at..]) == multiset(nodes) + multiset{slot}
  {
    assert nodes == nodes[..at] + nodes[at..];
  }

  lemma RemoveSorted(nodes: seq<Slot>, at: nat)
    requires Sorted(nodes) && at < |nodes|
    ensures Sorted(nodes[..at] + nodes[at + 1..])
    ensures multiset(nodes) == multiset(nodes[..at] + nodes[at + 1..]) + multiset{nodes[at]}
  {
    var r := nodes[..at] + nodes[at + 1..];
    assert nodes == nodes[..at] + [nodes[at]] + nodes[at + 1..];
    assert forall i :: 0 <= i < at ==> r[i] == nodes[i];
    assert forall i :: at <= i < |r| ==> r[i] == nodes[i + 1];
  }

  /** multimap::insert. */
  method Insert(nodes: seq<Slot>, slot: Slot) returns (r: seq<Slot>)
    requires Sorted(nodes)
    ensures Sorted(r) && multiset(r) == multiset(nodes) + multiset{slot}
  {
    var at := UpperBound(nodes, slot.key);
    InsertSorted(nodes, at, slot);
    r := nodes[..at] + [slot] + nodes[at..];
  }

  /** Every filed node is one binding of the index, and no node is filed twice. */
  lemma FiledOnce(nodes: seq<Slot>, search: map<nat, Node>)
    requires multiset(nodes) == multiset(Filed(search))
    ensures forall i :: 0 <= i < |nodes| ==> nodes[i].id in search && search[nodes[i].id].expire == nodes[i].key
    ensures forall i, j :: 0 <= i < j < |nodes| ==> nodes[i].id != nodes[j].id
    ensures forall id <- search :: Slot(search[id].expire, id) in nodes
  {
    forall i | 0 <= i < |nodes| ensures nodes[i] in Filed(search) {
      assert nodes[i] in multiset(nodes);
    }
    forall i, j | 0 <= i < j < |nodes| ensures nodes[i] != nodes[j] {
      assert nodes == nodes[..j] + [nodes[j]] + nodes[j + 1..];
      assert multiset(nodes) == multiset(nodes[..j]) + multiset{nodes[j]} + multiset(nodes[j + 1..]);
      assert nodes[i] in multiset(nodes[..j]) by { assert nodes[..j][i] == nodes[i]; }
      assert multiset(nodes)[nodes[j]] <= 1;
    }
    forall id <- search ensures Slot(search[id].expire, id) in nodes {
      assert Slot(search[id].expire, id) in multiset(nodes);
    }
  }

  /** equal_range(node->expire), then a walk through it for the id. */
  method FindNode(nodes: seq<Slot>, search: map<nat, Node>, id: nat) returns (at: nat)
    requires Agree(nodes, [], search) && id in search
    ensures at < |nodes| && nodes[at] == Slot(search[id].expire, id)
  {
    FiledOnce(nodes, search);
    ghost var where :| 0 <= where < |nodes| && nodes[where] == Slot(search[id].expire, id);
    at := 0;
    while nodes[at].key < search[id].expire
      invariant 0 <= at <= where
      decreases where - at
    {
      at := at + 1;
    }
    while nodes[at].id != id
      invariant 0 <= at <= where
      decreases where - at
    {
      assert nodes[at].key == search[id].expire;
      at := at + 1;
    }
  }

  lemma Cancel(a: multiset<Slot>, b: multiset<Slot>, x: Slot)
    requires a + multiset{x} == b + multiset{x}
    ensures a == b
  {
    assert a == (a + multiset{x}) - multiset{x};
    assert b == (b + multiset{x}) - multiset{x};
  }

  lemma CancelBeside(
    a: multiset<Slot>, w: multiset<Slot>, b: multiset<Slot>, whole: multiset<Slot>, filed: multiset<Slot>, x: Slot)
    requires whole == a + multiset{x} && filed == b + multiset{x} && whole + w == filed
    ensures a + w == b
  {
    assert (a + multiset{x}) + w == (a + w) + multiset{x};
    Cancel(a + w, b, x);
  }

  lemma DropAgrees(nodes: seq<Slot>, search: map<nat, Node>, at: nat)
    requires Agree(nodes, [], search) && at < |nodes|
    requires nodes[at].id in search && search[nodes[at].id].expire == nodes[at].key
    ensures Agree(nodes[..at] + nodes[at + 1..], [], search - {nodes[at].id})
  {
    var rest := nodes[..at] + nodes[at + 1..];
    RemoveSorted(nodes, at);
    FiledRemove(search, nodes[at].id);
    Cancel(multiset(rest), multiset(Filed(search - {nodes[at].id})), nodes[at]);
  }

  lemma FrontAgrees(nodes: seq<Slot>, waiting: seq<Slot>, search: map<nat, Node>, id: nat)
    requires Agree(nodes, waiting, search) && nodes != [] && id == nodes[0].id
    requires id in search && search[id].expire == nodes[0].key
    ensures Agree(nodes[1..], waiting, search - {id})
  {
    var rest, x := nodes[1..], nodes[0];
    FrontRemoved(nodes);
    FiledRemove(search, id);
    CancelBeside(multiset(rest), multiset(waiting), multiset(Filed(search - {id})),
                 multiset(nodes), multiset(Filed(search)), x);
  }

  lemma FrontRemoved(nodes: seq<Slot>)
    requires Sorted(nodes) && nodes != []
    ensures Sorted(nodes[1..]) && multiset(nodes) == multiset(nodes[1..]) + multiset{nodes[0]}
  {
    assert nodes == [nodes[0]] + nodes[1..];
  }

  lemma WaitAgrees(nodes: seq<Slot>, waiting: seq<Slot>, search: map<nat, Node>, id: nat, node: Node)
    requires Agree(nodes, waiting, search) && id !in search
    ensures Agree(nodes, waiting + [Slot(node.expire, id)], search[id := node])
  {
    FiledAdd(search, id, node);
  }

  lemma ReplaceKeepsCount(search: map<nat, Node>, id: nat, node: Node)
    requires id in search
    ensures |multiset(Filed(search[id := node]))| == |multiset(Filed(search))|
  {
    FiledRemove(search, id);
    FiledAdd(search - {id}, id, node);
    assert (search - {id})[id := node] == search[id := node];
  }

  /** Filing a new node keeps the two indexes in agreement exactly when its id is not in use. */
  lemma AddAgreesIff(nodes: seq<Slot>, more: seq<Slot>, search: map<nat, Node>, id: nat, node: Node)
    requires Agree(nodes, [], search)
    requires Sorted(more) && multiset(more) == multiset(nodes) + multiset{Slot(node.expire, id)}
    ensures Agree(more, [], search[id := node]) <==> id !in search
  {
    if id !in search {
      FiledAdd(search, id, node);
    } else {
      ReplaceKeepsCount(search, id, node);
      assert |multiset(more)| == |multiset(nodes)| + 1;
    }
  }

  // --------------------------------------------------------------- the class

  class Timer {
    /** m_nodes. */
    var nodes: seq<Slot>
    /** m_search. */
    var search: map<nat, Node>
    /** How many ids were drawn; m_id is this modulo 2^32. */
    var drawn: nat

    ghost predicate Valid()
      reads this
    {
      Agree(nodes, [], search)
    }

    constructor ()
      ensures Valid() && search == map[] && drawn == 0
    {
      nodes, search, drawn := [], map[], 0;
      new;
      assert Filed(search) == {};
    }

    /** addTimer at time `now`. The indexes agree afterwards if and only if the id drawn is not that of a live timer. */
    method AddTimer(now: nat, ms: nat, repeat: bool) returns (id: nat)
      requires Valid()
      modifies this
      ensures id == old(drawn) % U32 && drawn == old(drawn) + 1
      ensures search == old(search)[id := Node(now + ms, ms, repeat)]
      ensures Sorted(nodes) && multiset(nodes) == multiset(old(nodes)) + multiset{Slot(now + ms, id)}
      ensures Valid() <==> id !in old(search)
    {
      id := drawn % U32;
      drawn := drawn + 1;
      var node := Node(now + ms, ms, repeat);
      var more := Insert(nodes, Slot(node.expire, id));
      AddAgreesIff(nodes, more, search, id, node);
      nodes := more;
      search := search[id := node];
    }

    /** delTimer: succeeds exactly for live ids. */
    method DelTimer(id: nat) returns (found: bool)
      requires Valid()
      modifies this
      ensures Valid() && drawn == old(drawn)
      ensures found <==> id in old(search)
      ensures search == old(search) - {id}
    {
      if id !in search {
        return false;
      }
      var at := FindNode(nodes, search, id);
      DropAgrees(nodes, search, at);
      nodes := nodes[..at] + nodes[at + 1..];
      search := search - {id};
      found := true;
    }

    /**
     update: fires every timer due at entry exactly once, earliest first, removes the one-shots and reschedules the
     repeaters; it terminates even when a repeater's duration is 0, because rescheduled nodes are re-filed at the end.
     Callbacks do not call back into the timer.
     */
    method Update(ms: nat) returns (fired: seq<nat>)
      requires Valid()
      modifies this`nodes, this`search
      ensures Valid()
      ensures (set id <- fired) == Due(old(search), ms)
      ensures search == Advance(old(search), Due(old(search), ms), ms)
      ensures search.Keys <= old(search).Keys
      ensures forall id <- old(search) :: old(search)[id].expire > ms ==> id in search && search[id] == old(search)[id]
      ensures forall id <- old(search) :: old(search)[id].expire <= ms ==> (id in search <==> old(search)[id].repeat)
      ensures forall id <- search :: old(search)[id].expire <= ms ==> search[id].expire == ms + old(search)[id].duration
      ensures forall i, j :: 0 <= i < j < |fired| ==>
                fired[i] != fired[j] && fired[i] in old(search) && fired[j] in old(search)
                && old(search)[fired[i]].expire <= old(search)[fired[j]].expire
    {
      ghost var all, index := nodes, search;
      FiledOnce(all, index);
      var waiting;
      fired, waiting := FireDue(ms);
      DueIds(index, all, |fired|, ms);
      FiredIds(all, fired);
      Refile(waiting);
    }

    /** The first loop of update. */
    method FireDue(ms: nat) returns (fired: seq<nat>, waiting: seq<Slot>)
      requires Valid()
      modifies this`nodes, this`search
      ensures Agree(nodes, waiting, search)
      ensures Progress(old(nodes), old(search), ms, fired, nodes, search)
      ensures |fired| < |old(nodes)| ==> old(nodes)[|fired|].key > ms
    {
      ghost var all, index := nodes, search;
      FiledOnce(all, index);
      fired, waiting := [], [];
      assert Advance(index, Ids(all[..0]), ms) == index;
      while nodes != [] && search[nodes[0].id].expire <= ms
        invariant Agree(nodes, waiting, search)
        invariant Progress(all, index, ms, fired, nodes, search)
        invariant nodes != [] ==> FrontLive(nodes, search)
        decreases |nodes|
      {
        fired, waiting := FireFront(ms, waiting, fired, all, index);
      }
    }

    /** The second loop of update: the repeaters go back into m_nodes. */
    method Refile(waiting: seq<Slot>)
      requires Agree(nodes, waiting, search)
      modifies this`nodes
      ensures Valid()
    {
      var rest := waiting;
      while rest != []
        invariant Agree(nodes, rest, search)
        decreases |rest|
      {
        assert rest == [rest[0]] + rest[1..];
        nodes := Insert(nodes, rest[0]);
        rest := rest[1..];
      }
    }

    /** One turn of the first loop: the front node fires and leaves m_nodes. */
    method FireFront(ms: nat, waiting: seq<Slot>, fired: seq<nat>, ghost all: seq<Slot>, ghost index: map<nat, Node>)
        returns (more: seq<nat>, later: seq<Slot>)
      requires nodes != [] && FrontLive(nodes, search) && nodes[0].key <= ms
      requires Agree(nodes, waiting, search) && Progress(all, index, ms, fired, nodes, search)
      requires forall i :: 0 <= i < |all| ==> all[i].id in index && index[all[i].id].expire == all[i].key
      requires forall i, j :: 0 <= i < j < |all| ==> all[i].id != all[j].id
      modifies this`nodes, this`search
      ensures Agree(nodes, later, search) && Progress(all, index, ms, more, nodes, search)
      ensures nodes == old(nodes)[1..] && (nodes != [] ==> FrontLive(nodes, search))
    {
      TurnAgrees(nodes, waiting, search, ms);
      TurnProgress(all, index, ms, fired, nodes, search);
      var id := nodes[0].id;
      more := fired + [id];
      later := if search[id].repeat then waiting + [Slot(ms + search[id].duration, id)] else waiting;
      search := AfterFire(search, id, ms);
      nodes := nodes[1..];
    }
  }

  /** After 2^32 timers the ids start again: a timer that has lived that long loses its place in the hash index. */
  method LiveIdComesRound() returns (timer: Timer)
    ensures !timer.Valid()
  {
    timer := new Timer();
    var first := timer.AddTimer(0, 1000, true);
    while timer.drawn < U32
      invariant fresh(timer) && timer.Valid() && 1 <= timer.drawn <= U32
      invariant timer.search.Keys == {0}
      decreases U32 - timer.drawn
    {
      var next := timer.AddTimer(0, 1000, true);
      var found := timer.DelTimer(next);
    }
    var again := timer.AddTimer(0, 1000, true);
  }

  /** What firing one timer at `ms` does to the index. */
  function AfterFire(search: map<nat, Node>, id: nat, ms: nat): map<nat, Node>
    requires id in search
  {
    var node := search[id];
    if node.repeat then search[id := node.(expire := ms + node.duration)] else search - {id}
  }

  lemma TurnAgrees(nodes: seq<Slot>, waiting: seq<Slot>, search: map<nat, Node>, ms: nat)
    requires Agree(nodes, waiting, search) && nodes != [] && FrontLive(nodes, search)
    ensures var id := nodes[0].id;
            Agree(nodes[1..],
                  if search[id].repeat then waiting + [Slot(ms + search[id].duration, id)] else waiting,
                  AfterFire(search, id, ms))
  {
    var id := nodes[0].id;
    FrontAgrees(nodes, waiting, search, id);
    if search[id].repeat {
      var again := search[id].(expire := ms + search[id].duration);
      WaitAgrees(nodes[1..], waiting, search - {id}, id, again);
      assert (search - {id})[id := again] == search[id := again];
    }
  }

  lemma TurnProgress(
    all: seq<Slot>, index: map<nat, Node>, ms: nat, fired: seq<nat>, nodes: seq<Slot>, search: map<nat, Node>)
    requires Progress(all, index, ms, fired, nodes, search) && nodes != [] && FrontLive(nodes, search)
    requires nodes[0].key <= ms
    requires forall i :: 0 <= i < |all| ==> all[i].id in index && index[all[i].id].expire == all[i].key
    requires forall i, j :: 0 <= i < j < |all| ==> all[i].id != all[j].id
    ensures Progress(all, index, ms, fired + [nodes[0].id], nodes[1..], AfterFire(search, nodes[0].id, ms))
    ensures nodes[1..] != [] ==> FrontLive(nodes[1..], AfterFire(search, nodes[0].id, ms))
  {
    var n := |fired|;
    assert nodes[0] == all[n];
    AdvanceOne(index, all, n, ms);
    ProgressOne(all, index, ms, fired, nodes, search);
    if n + 1 < |all| {
      assert nodes[1..][0] == all[n + 1];
      AdvanceOne(index, all, n + 1, ms);
    }
  }

  ghost predicate FrontLive(nodes: seq<Slot>, search: map<nat, Node>)
    requires nodes != []
  {
    nodes[0].id in search && search[nodes[0].id].expire == nodes[0].key
  }

  /** After firing the first |fired| nodes: the others are untouched, and the index has advanced for the fired ones. */
  ghost predicate Progress(
    all: seq<Slot>, index: map<nat, Node>, ms: nat, fired: seq<nat>, nodes: seq<Slot>, search: map<nat, Node>)
  {
    && |fired| <= |all| && nodes == all[|fired|..]
    && (forall i :: 0 <= i < |fired| ==> fired[i] == all[i].id && all[i].key <= ms)
    && search == Advance(index, Ids(all[..|fired|]), ms)
  }

  lemma ProgressOne(
    all: seq<Slot>, index: map<nat, Node>, ms: nat, fired: seq<nat>, nodes: seq<Slot>, search: map<nat, Node>)
    requires Progress(all, index, ms, fired, nodes, search) && nodes != [] && nodes[0].key <= ms
    ensures var n := |fired|;
            Progress(all, index, ms, fired + [nodes[0].id], nodes[1..], Advance(index, Ids(all[..n + 1]), ms))
  {
    assert nodes[0] == all[|fired|];
  }

  lemma FiredIds(all: seq<Slot>, fired: seq<nat>)
    requires |fired| <= |all| && forall i :: 0 <= i < |fired| ==> fired[i] == all[i].id
    ensures (set id <- fired) == Ids(all[..|fired|])
  {
    forall id <- fired ensures id in Ids(all[..|fired|]) {
      var i :| 0 <= i < |fired| && fired[i] == id;
      assert all[..|fired|][i].id == id;
    }
  }

  ghost function Ids(nodes: seq<Slot>): set<nat> {
    set i | 0 <= i < |nodes| :: nodes[i].id
  }

  lemma AdvanceOne(index: map<nat, Node>, all: seq<Slot>, n: nat, ms: nat)
    requires n < |all| && all[n].id in index
    requires forall i, j :: 0 <= i < j < |all| ==> all[i].id != all[j].id
    ensures var before, id := Advance(index, Ids(all[..n]), ms), all[n].id;
            && id in before && before[id] == index[id]
            && Advance(index, Ids(all[..n + 1]), ms)
               == if index[id].repeat then before[id := index[id].(expire := ms + index[id].duration)]
                  else before - {id}
  {
    assert all[..n + 1] == all[..n] + [all[n]];
    assert Ids(all[..n + 1]) == Ids(all[..n]) + {all[n].id};
    assert all[n].id !in Ids(all[..n]);
  }

  /** When the loop stops, what has fired is exactly what was due. */
  lemma DueIds(index: map<nat, Node>, all: seq<Slot>, n: nat, ms: nat)
    requires Sorted(all) && n <= |all| && multiset(all) == multiset(Filed(index))
    requires forall i :: 0 <= i < n ==> all[i].key <= ms
    requires n < |all| ==> all[n].key > ms
    ensures Ids(all[..n]) == Due(index, ms)
  {
    FiledOnce(all, index);
    forall id <- Due(index, ms) ensures id in Ids(all[..n]) {
      var i :| 0 <= i < |all| && all[i] == Slot(index[id].expire, id);
      assert i < n;
      assert all[..n][i].id == id;
    }
  }
}
