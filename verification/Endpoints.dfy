/**
 The active and inactive endpoint lists of ServiceProxy and their reconciliation with the registry's answer
 (source/framework/storm_service_proxy.cpp).
 */
module Endpoints {

  datatype Address = Address(ip: string, port: nat)

  /** A ProxyEndPoint; `id` is the identity of the object, counted in order of creation. */
  datatype EndPoint = EndPoint(id: nat, address: Address)

  datatype Table = Table(active: seq<EndPoint>, inactive: seq<EndPoint>, created: nat)

  const EMPTY := Table([], [], 0)

  // ------------------------------------------------------------ the updates

  function FindAddress(all: seq<EndPoint>, address: Address): (at: nat)
    ensures at <= |all| && (at < |all| ==> all[at].address == address)
    ensures forall i :: 0 <= i < at ==> all[i].address != address
  {
    if all == [] || all[0].address == address then 0 else 1 + FindAddress(all[1..], address)
  }

  function Drop(all: seq<EndPoint>, at: nat): seq<EndPoint>
    requires at < |all|
  {
    all[..at] + all[at + 1..]
  }

  /** The loop over the registry's answer: each wanted address takes the first known endpoint, or a new one. */
  function Reconcile(all: seq<EndPoint>, wanted: seq<Address>, created: nat): Table
    decreases |wanted|
  {
    if wanted == [] then Table([], all, created)
    else
      var at := FindAddress(all, wanted[0]);
      if at < |all| then
        var t := Reconcile(Drop(all, at), wanted[1..], created);
        t.(active := [all[at]] + t.active)
      else
        var t := Reconcile(all, wanted[1..], created + 1);
        t.(active := [EndPoint(created, wanted[0])] + t.active)
  }

  /** updateEndPoints. */
  function Update(t: Table, wanted: seq<Address>): Table {
    Reconcile(t.active + t.inactive, wanted, t.created)
  }

  function FindEndPoint(all: seq<EndPoint>, ep: EndPoint): (at: nat)
    ensures at <= |all| && (at < |all| ==> all[at] == ep)
    ensures at == |all| ==> ep !in all
  {
    if all == [] || all[0] == ep then 0 else 1 + FindEndPoint(all[1..], ep)
  }

  /** The first loop of moveToInactive: the first occurrence leaves the list. */
  function DropFirst(all: seq<EndPoint>, ep: EndPoint): seq<EndPoint> {
    var at := FindEndPoint(all, ep);
    if at < |all| then Drop(all, at) else all
  }

  /** The second loop of moveToInactive, erasing from the list it walks. */
  function DropAll(all: seq<EndPoint>, ep: EndPoint): seq<EndPoint> {
    if all == [] then [] else (if all[0] == ep then [] else [all[0]]) + DropAll(all[1..], ep)
  }

  function MoveToInactive(t: Table, ep: EndPoint): Table {
    t.(active := DropFirst(t.active, ep), inactive := DropAll(t.inactive, ep) + [ep])
  }

  // ------------------------------------------------------------ conservation

  /** The endpoints created while the counter went from `from` to `to`. */
  ghost predicate CreatedBetween(eps: multiset<EndPoint>, from: nat, to: nat) {
    |eps| == to - from && forall ep <- eps :: from <= ep.id < to && eps[ep] == 1
  }

  ghost function All(t: Table): multiset<EndPoint> {
    multiset(t.active) + multiset(t.inactive)
  }

  /** No endpoint appears twice, in one list or across both, and every one was created by this proxy. */
  ghost predicate Valid(t: Table) {
    forall ep <- All(t) :: ep.id < t.created && All(t)[ep] == 1
  }

  lemma DropMultiset(all: seq<EndPoint>, at: nat)
    requires at < |all|
    ensures multiset(all) == multiset(Drop(all, at)) + multiset{all[at]}
  {
    assert all == all[..at] + [all[at]] + all[at + 1..];
  }

  /** The endpoints a reconciliation creates. */
  ghost function Made(all: seq<EndPoint>, wanted: seq<Address>, created: nat): multiset<EndPoint>
    decreases |wanted|
  {
    if wanted == [] then multiset{}
    else
      var at := FindAddress(all, wanted[0]);
      if at < |all| then Made(Drop(all, at), wanted[1..], created)
      else Made(all, wanted[1..], created + 1) + multiset{EndPoint(created, wanted[0])}
  }

  lemma {:induction false} MadeBetween(all: seq<EndPoint>, wanted: seq<Address>, created: nat)
    ensures var t := Reconcile(all, wanted, created);
            t.created >= created && CreatedBetween(Made(all, wanted, created), created, t.created)
    decreases |wanted|
  {
    if wanted != [] {
      var at := FindAddress(all, wanted[0]);
      if at < |all| {
        MadeBetween(Drop(all, at), wanted[1..], created);
      } else {
        MadeBetween(all, wanted[1..], created + 1);
      }
    }
  }

  lemma {:induction false} ReconcileAddresses(all: seq<EndPoint>, wanted: seq<Address>, created: nat)
    ensures var t := Reconcile(all, wanted, created);
            |t.active| == |wanted| && forall i :: 0 <= i < |wanted| ==> t.active[i].address == wanted[i]
    decreases |wanted|
  {
    if wanted != [] {
      var at := FindAddress(all, wanted[0]);
      if at < |all| {
        ReconcileAddresses(Drop(all, at), wanted[1..], created);
      } else {
        ReconcileAddresses(all, wanted[1..], created + 1);
      }
    }
  }

  /** Reconciling conserves objects: the result holds exactly the endpoints there were plus the ones created. */
  lemma {:induction false} ReconcileConserves(all: seq<EndPoint>, wanted: seq<Address>, created: nat)
    ensures All(Reconcile(all, wanted, created)) == multiset(all) + Made(all, wanted, created)
    decreases |wanted|
  {
    if wanted != [] {
      var at := FindAddress(all, wanted[0]);
      if at < |all| {
        var t, made := Reconcile(Drop(all, at), wanted[1..], created), Made(Drop(all, at), wanted[1..], created);
        ReconcileConserves(Drop(all, at), wanted[1..], created);
        DropMultiset(all, at);
        Prepend(t, all[at], multiset(Drop(all, at)), made, multiset(all));
      } else {
        var ep := EndPoint(created, wanted[0]);
        var t, made := Reconcile(all, wanted[1..], created + 1), Made(all, wanted[1..], created + 1);
        ReconcileConserves(all, wanted[1..], created + 1);
        PrependMade(t, ep, multiset(all), made);
      }
    }
  }

  lemma Prepend(t: Table, ep: EndPoint, rest: multiset<EndPoint>, made: multiset<EndPoint>, whole: multiset<EndPoint>)
    requires All(t) == rest + made && whole == rest + multiset{ep}
    ensures All(t.(active := [ep] + t.active)) == whole + made
  {
    assert All(t.(active := [ep] + t.active)) == multiset{ep} + All(t);
    assert multiset{ep} + (rest + made) == whole + made;
  }

  lemma PrependMade(t: Table, ep: EndPoint, rest: multiset<EndPoint>, made: multiset<EndPoint>)
    requires All(t) == rest + made
    ensures All(t.(active := [ep] + t.active)) == rest + (made + multiset{ep})
  {
    assert All(t.(active := [ep] + t.active)) == multiset{ep} + All(t);
    assert multiset{ep} + (rest + made) == rest + (made + multiset{ep});
  }

  lemma {:induction false} DropAllMultiset(all: seq<EndPoint>, ep: EndPoint)
    ensures multiset(DropAll(all, ep)) == multiset(all)[ep := 0]
  {
    if all != [] {
      assert all == [all[0]] + all[1..];
      DropAllMultiset(all[1..], ep);
    }
  }

  lemma DropFirstMultiset(all: seq<EndPoint>, ep: EndPoint)
    requires multiset(all)[ep] <= 1
    ensures multiset(DropFirst(all, ep)) == multiset(all)[ep := 0]
  {
    var at := FindEndPoint(all, ep);
    if at < |all| {
      DropMultiset(all, at);
    }
  }

  /** moveToInactive of a known endpoint only moves it. */
  lemma MoveConserves(t: Table, ep: EndPoint)
    requires Valid(t) && ep in All(t)
    ensures All(MoveToInactive(t, ep)) == All(t)
    ensures var u := MoveToInactive(t, ep); ep !in u.active && u.created == t.created
  {
    assert All(t)[ep] == 1;
    DropFirstMultiset(t.active, ep);
    DropAllMultiset(t.inactive, ep);
    var u := MoveToInactive(t, ep);
    MoveOne(multiset(t.active), multiset(t.inactive), ep);
    assert multiset(u.inactive) == multiset(t.inactive)[ep := 0] + multiset{ep};
    assert ep !in multiset(u.active);
  }

  lemma MoveOne(a: multiset<EndPoint>, b: multiset<EndPoint>, ep: EndPoint)
    requires (a + b)[ep] == 1
    ensures a[ep := 0] + (b[ep := 0] + multiset{ep}) == a + b
  {
  }

  lemma OnceIn(l: seq<EndPoint>, other: seq<EndPoint>, before: seq<EndPoint>, after: seq<EndPoint>, ep: EndPoint)
    requires l == before + [ep] + after && (multiset(l) + multiset(other))[ep] <= 1
    ensures ep !in before && ep !in after && ep !in other
  {
    assert multiset(l) == multiset(before) + multiset{ep} + multiset(after);
    assert multiset(before)[ep] == 0 && multiset(after)[ep] == 0 && multiset(other)[ep] == 0;
  }

  lemma {:induction false} DropAllAbsent(all: seq<EndPoint>, ep: EndPoint)
    requires ep !in all
    ensures DropAll(all, ep) == all
  {
    if all != [] {
      DropAllAbsent(all[1..], ep);
    }
  }

  lemma {:induction false} DropAllOnce(before: seq<EndPoint>, after: seq<EndPoint>, ep: EndPoint)
    requires ep !in before && ep !in after
    ensures DropAll(before + [ep] + after, ep) == before + after
  {
    if before == [] {
      assert (before + [ep] + after)[1..] == after && before + after == after;
      DropAllAbsent(after, ep);
    } else {
      DropAllOnce(before[1..], after, ep);
      assert (before + [ep] + after)[1..] == before[1..] + [ep] + after;
      assert before + after == [before[0]] + (before[1..] + after);
    }
  }

  lemma {:induction false} FirstPlace(all: seq<EndPoint>, ep: EndPoint, at: nat)
    requires at < |all| && all[at] == ep && forall i :: 0 <= i < at ==> all[i] != ep
    ensures FindEndPoint(all, ep) == at
  {
    if at > 0 {
      FirstPlace(all[1..], ep, at - 1);
    }
  }

  lemma ActiveMoves(t: Table, ep: EndPoint, before: seq<EndPoint>, after: seq<EndPoint>)
    requires t.active == before + [ep] + after && ep !in before && ep !in t.inactive
    ensures MoveToInactive(t, ep) == t.(active := before + after, inactive := t.inactive + [ep])
  {
    assert t.active[|before|] == ep;
    FirstPlace(t.active, ep, |before|);
    assert Drop(t.active, |before|) == before + after;
    DropAllAbsent(t.inactive, ep);
  }

  lemma InactiveMoves(t: Table, ep: EndPoint, before: seq<EndPoint>, after: seq<EndPoint>)
    requires t.inactive == before + [ep] + after && ep !in before && ep !in after && ep !in t.active
    ensures MoveToInactive(t, ep) == t.(inactive := before + after + [ep])
  {
    DropAllOnce(before, after, ep);
  }

  /** The endpoint goes to the end of the inactive list, and all others keep their places. */
  lemma MoveMeans(t: Table, ep: EndPoint, before: seq<EndPoint>, after: seq<EndPoint>)
    requires Valid(t)
    ensures var u := MoveToInactive(t, ep);
            && (t.active == before + [ep] + after ==> u.active == before + after && u.inactive == t.inactive + [ep])
            && (t.inactive == before + [ep] + after ==> u.active == t.active && u.inactive == before + after + [ep])
  {
    if t.active == before + [ep] + after {
      assert ep in All(t) && All(t)[ep] == 1;
      OnceIn(t.active, t.inactive, before, after, ep);
      ActiveMoves(t, ep, before, after);
    }
    if t.inactive == before + [ep] + after {
      assert ep in All(t) && All(t)[ep] == 1;
      OnceIn(t.inactive, t.active, before, after, ep);
      InactiveMoves(t, ep, before, after);
    }
  }

  // -------------------------------------------------------------------- runs

  datatype Event = Query(wanted: seq<Address>) | ConnectFailed(ep: EndPoint)

  /** Only endpoints of this proxy report a failed connection. */
  ghost predicate Enabled(t: Table, e: Event) {
    e.ConnectFailed? ==> e.ep in All(t)
  }

  function Apply(t: Table, e: Event): Table {
    match e
    case Query(wanted) => Update(t, wanted)
    case ConnectFailed(ep) => MoveToInactive(t, ep)
  }

  ghost predicate Legal(t: Table, run: seq<Event>)
    decreases |run|
  {
    run == [] || (Enabled(t, run[0]) && Legal(Apply(t, run[0]), run[1..]))
  }

  function Final(t: Table, run: seq<Event>): Table
    decreases |run|
  {
    if run == [] then t else Final(Apply(t, run[0]), run[1..])
  }

  lemma StepConserves(t: Table, e: Event)
    requires Valid(t) && Enabled(t, e)
    ensures Valid(Apply(t, e)) && All(t) <= All(Apply(t, e))
    ensures |All(Apply(t, e))| - |All(t)| == Apply(t, e).created - t.created
  {
    match e
    case Query(wanted) =>
      var all := t.active + t.inactive;
      var made := Made(all, wanted, t.created);
      ReconcileConserves(all, wanted, t.created);
      MadeBetween(all, wanted, t.created);
      assert multiset(all) == All(t);
      forall ep <- All(Apply(t, e)) ensures ep.id < Apply(t, e).created && All(Apply(t, e))[ep] == 1 {
        assert ep in All(t) ==> ep !in made;
      }
    case ConnectFailed(ep) =>
      MoveConserves(t, ep);
  }

  lemma {:induction false} RunConserves(t: Table, run: seq<Event>)
    requires Valid(t) && Legal(t, run)
    ensures Valid(Final(t, run)) && All(t) <= All(Final(t, run))
    ensures |All(Final(t, run))| - |All(t)| == Final(t, run).created - t.created
    decreases |run|
  {
    if run != [] {
      StepConserves(t, run[0]);
      RunConserves(Apply(t, run[0]), run[1..]);
    }
  }

  /**
   After any run of registry answers and connection failures, no endpoint is listed twice (so the lists are disjoint
   and free of duplicates), and the lists hold exactly as many endpoints as were ever created: none has vanished.
   */
  lemma EndpointsConserved(run: seq<Event>)
    requires Legal(EMPTY, run)
    ensures var t := Final(EMPTY, run);
            && (forall ep <- All(t) :: All(t)[ep] == 1 && ep.id < t.created)
            && |t.active| + |t.inactive| == t.created
  {
    RunConserves(EMPTY, run);
  }

  /** An endpoint that a pending request was sent to stays in one of the lists whatever happens later. */
  lemma UsedEndpointStays(before: seq<Event>, after: seq<Event>, ep: EndPoint)
    requires Legal(EMPTY, before) && Legal(Final(EMPTY, before), after) && ep in Final(EMPTY, before).active
    ensures var t := Final(Final(EMPTY, before), after); ep in t.active || ep in t.inactive
  {
    RunConserves(EMPTY, before);
    RunConserves(Final(EMPTY, before), after);
    assert ep in All(Final(EMPTY, before));
    assert ep in All(Final(Final(EMPTY, before), after));
  }

  /** Right after updateEndPoints the active addresses are the registry's list, in order. */
  lemma UpdateFollowsRegistry(t: Table, wanted: seq<Address>)
    ensures var u := Update(t, wanted);
            |u.active| == |wanted| && forall i :: 0 <= i < |wanted| ==> u.active[i].address == wanted[i]
  {
    ReconcileAddresses(t.active + t.inactive, wanted, t.created);
  }

  // ------------------------------------------------------- whom an update reuses

  /** How many of the endpoints have this address. */
  function Known(all: seq<EndPoint>, address: Address): nat {
    if all == [] then 0 else (if all[0].address == address then 1 else 0) + Known(all[1..], address)
  }

  /** How many endpoints under this address were created since the counter stood at `from`. */
  function New(all: seq<EndPoint>, from: nat, address: Address): nat {
    if all == [] then 0
    else (if all[0].id >= from && all[0].address == address then 1 else 0) + New(all[1..], from, address)
  }

  ghost predicate AllOld(all: seq<EndPoint>, from: nat) {
    forall i :: 0 <= i < |all| ==> all[i].id < from
  }

  lemma {:induction false} KnownDrop(all: seq<EndPoint>, at: nat, address: Address)
    requires at < |all|
    ensures Known(all, address) == Known(Drop(all, at), address) + if all[at].address == address then 1 else 0
  {
    if at == 0 {
      assert Drop(all, 0) == all[1..];
    } else {
      KnownDrop(all[1..], at - 1, address);
      assert Drop(all, at)[1..] == Drop(all[1..], at - 1);
    }
  }

  lemma {:induction false} NotKnown(all: seq<EndPoint>, address: Address)
    requires forall i :: 0 <= i < |all| ==> all[i].address != address
    ensures Known(all, address) == 0
  {
    if all != [] {
      NotKnown(all[1..], address);
    }
  }

  lemma {:induction false} OldNotNew(all: seq<EndPoint>, from: nat, address: Address)
    requires AllOld(all, from)
    ensures New(all, from, address) == 0
  {
    if all != [] {
      OldNotNew(all[1..], from, address);
    }
  }

  /** How many endpoints are missing under an address. */
  ghost function Missing(all: seq<EndPoint>, wanted: seq<Address>, address: Address): nat {
    var occurs, known := multiset(wanted)[address], Known(all, address);
    if occurs > known then occurs - known else 0
  }

  lemma OneMore(ep: EndPoint, rest: seq<EndPoint>, from: nat, address: Address)
    ensures New([ep] + rest, from, address)
            == New(rest, from, address) + if ep.id >= from && ep.address == address then 1 else 0
  {
    assert ([ep] + rest)[1..] == rest;
  }

  lemma {:induction false} ReconcileCreates(
    all: seq<EndPoint>, wanted: seq<Address>, created: nat, from: nat, address: Address)
    requires AllOld(all, from) && from <= created
    ensures var t := Reconcile(all, wanted, created);
            New(t.active, from, address) == Missing(all, wanted, address) && AllOld(t.inactive, from)
    decreases |wanted|
  {
    if wanted != [] {
      var at := FindAddress(all, wanted[0]);
      assert wanted == [wanted[0]] + wanted[1..];
      if at < |all| {
        ReconcileCreates(Drop(all, at), wanted[1..], created, from, address);
        KnownDrop(all, at, address);
        OneMore(all[at], Reconcile(Drop(all, at), wanted[1..], created).active, from, address);
      } else {
        NotKnown(all, wanted[0]);
        ReconcileCreates(all, wanted[1..], created + 1, from, address);
        OneMore(EndPoint(created, wanted[0]), Reconcile(all, wanted[1..], created + 1).active, from, address);
      }
    }
  }

  lemma {:induction false} KnownJoin(a: seq<EndPoint>, b: seq<EndPoint>, address: Address)
    ensures Known(a + b, address) == Known(a, address) + Known(b, address)
  {
    if a == [] {
      assert a + b == b;
    } else {
      KnownJoin(a[1..], b, address);
      assert (a + b)[1..] == a[1..] + b;
    }
  }

  lemma {:induction false} NewJoin(a: seq<EndPoint>, b: seq<EndPoint>, from: nat, address: Address)
    ensures New(a + b, from, address) == New(a, from, address) + New(b, from, address)
  {
    if a == [] {
      assert a + b == b;
    } else {
      NewJoin(a[1..], b, from, address);
      assert (a + b)[1..] == a[1..] + b;
    }
  }

  /**
   An update creates endpoints only where they are missing: under each address as many as the registry lists it more
   often than there were endpoints with it, active or inactive.
   */
  lemma UpdateCreatesMissing(t: Table, wanted: seq<Address>, address: Address)
    requires Valid(t)
    ensures var u, known := Update(t, wanted), Known(t.active, address) + Known(t.inactive, address);
            var occurs := multiset(wanted)[address];
            New(u.active + u.inactive, t.created, address) == if occurs > known then occurs - known else 0
  {
    var all, u := t.active + t.inactive, Update(t, wanted);
    assert AllOld(all, t.created) by {
      forall i | 0 <= i < |all| ensures all[i].id < t.created {
        assert all[i] in multiset(all) && multiset(all) == All(t);
      }
    }
    KnownJoin(t.active, t.inactive, address);
    ReconcileCreates(all, wanted, t.created, t.created, address);
    NewJoin(u.active, u.inactive, t.created, address);
    OldNotNew(u.inactive, t.created, address);
  }

  /** One pass over the known endpoints: the first ones under a wanted address are used, as many as are wanted. */
  ghost function Unused(all: seq<EndPoint>, wanted: multiset<Address>): seq<EndPoint> {
    if all == [] then []
    else if all[0].address in wanted then Unused(all[1..], wanted - multiset{all[0].address})
    else [all[0]] + Unused(all[1..], wanted)
  }

  lemma {:induction false} UnusedDrop(all: seq<EndPoint>, at: nat, wanted: multiset<Address>)
    requires at < |all| && all[at].address in wanted
    requires forall i :: 0 <= i < at ==> all[i].address != all[at].address
    ensures Unused(all, wanted) == Unused(Drop(all, at), wanted - multiset{all[at].address})
  {
    var a := all[at].address;
    if at == 0 {
      assert Drop(all, 0) == all[1..];
    } else {
      var b := all[0].address;
      assert Drop(all, at)[0] == all[0] && Drop(all, at)[1..] == Drop(all[1..], at - 1);
      if b in wanted {
        UnusedDrop(all[1..], at - 1, wanted - multiset{b});
        assert wanted - multiset{b} - multiset{a} == wanted - multiset{a} - multiset{b};
      } else {
        UnusedDrop(all[1..], at - 1, wanted);
      }
    }
  }

  lemma {:induction false} UnusedWithout(all: seq<EndPoint>, a: Address, wanted: multiset<Address>)
    requires a in wanted && forall i :: 0 <= i < |all| ==> all[i].address != a
    ensures Unused(all, wanted) == Unused(all, wanted - multiset{a})
  {
    if all != [] {
      var b := all[0].address;
      if b in wanted {
        UnusedWithout(all[1..], a, wanted - multiset{b});
        assert wanted - multiset{b} - multiset{a} == wanted - multiset{a} - multiset{b};
      } else {
        UnusedWithout(all[1..], a, wanted);
      }
    }
  }

  lemma {:induction false} NothingWanted(all: seq<EndPoint>)
    ensures Unused(all, multiset{}) == all
  {
    if all != [] {
      NothingWanted(all[1..]);
    }
  }

  lemma {:induction false} ReconcileLeaves(all: seq<EndPoint>, wanted: seq<Address>, created: nat)
    ensures Reconcile(all, wanted, created).inactive == Unused(all, multiset(wanted))
    decreases |wanted|
  {
    if wanted == [] {
      NothingWanted(all);
    } else {
      var at := FindAddress(all, wanted[0]);
      assert wanted == [wanted[0]] + wanted[1..];
      assert multiset(wanted) - multiset{wanted[0]} == multiset(wanted[1..]);
      if at < |all| {
        UnusedDrop(all, at, multiset(wanted));
        ReconcileLeaves(Drop(all, at), wanted[1..], created);
      } else {
        UnusedWithout(all, wanted[0], multiset(wanted));
        ReconcileLeaves(all, wanted[1..], created + 1);
      }
    }
  }

  /**
   The nested loops are one pass: what is inactive afterwards is what a single walk over the known endpoints, active
   ones first, does not need for the registry's list, in its old order.
   */
  lemma UpdateLeavesUnused(t: Table, wanted: seq<Address>)
    ensures Update(t, wanted).inactive == Unused(t.active + t.inactive, multiset(wanted))
  {
    ReconcileLeaves(t.active + t.inactive, wanted, t.created);
  }

  lemma {:induction false} NoneUnder(all: seq<EndPoint>, wanted: multiset<Address>, ep: EndPoint)
    requires Known(all, ep.address) == 0
    ensures ep !in Unused(all, wanted)
  {
    if all != [] {
      NoneUnder(all[1..], if all[0].address in wanted then wanted - multiset{all[0].address} else wanted, ep);
    }
  }

  lemma {:induction false} UniqueIsUsed(all: seq<EndPoint>, wanted: multiset<Address>, ep: EndPoint)
    requires Known(all, ep.address) <= 1 && ep.address in wanted
    ensures ep !in Unused(all, wanted)
  {
    if all != [] {
      if all[0].address == ep.address {
        NoneUnder(all[1..], wanted - multiset{ep.address}, ep);
      } else if all[0].address in wanted {
        UniqueIsUsed(all[1..], wanted - multiset{all[0].address}, ep);
      } else {
        UniqueIsUsed(all[1..], wanted, ep);
      }
    }
  }

  /** A known endpoint whose address the registry lists, and nobody else has, is active afterwards. */
  lemma WantedEndpointStaysActive(t: Table, wanted: seq<Address>, ep: EndPoint)
    requires Valid(t) && ep in All(t) && ep.address in wanted
    requires Known(t.active, ep.address) + Known(t.inactive, ep.address) == 1
    ensures ep in Update(t, wanted).active
  {
    var u := Update(t, wanted);
    UpdateLeavesUnused(t, wanted);
    KnownJoin(t.active, t.inactive, ep.address);
    UniqueIsUsed(t.active + t.inactive, multiset(wanted), ep);
    StepConserves(t, Query(wanted));
    assert ep in All(u) && ep !in multiset(u.inactive);
  }

  /**
   An endpoint can fail to connect while it is already inactive: the branch of moveToInactive that erases from the
   inactive list is reachable, by a registry answer that drops an endpoint still connecting.
   */
  lemma InactiveEndpointCanFail(a: Address)
    ensures var run := [Query([a]), Query([])];
            Legal(EMPTY, run) && EndPoint(0, a) in Final(EMPTY, run).inactive
            && Legal(EMPTY, run + [ConnectFailed(EndPoint(0, a))])
  {
    var run, ep := [Query([a]), Query([])], EndPoint(0, a);
    var t := Update(EMPTY, [a]);
    assert t == Table([ep], [], 1) by {
      assert Reconcile([], [a], 0) == Table([ep] + [], [], 1);
    }
    var u := Update(t, []);
    assert [ep] + [] == [ep];
    assert u == Table([], [ep], 1);
    assert run[1..] == [Query([])] && run[1..][1..] == [];
    var more := run + [ConnectFailed(ep)];
    assert more[1..] == [Query([]), ConnectFailed(ep)] && more[1..][1..] == [ConnectFailed(ep)];
    assert more[1..][1..][1..] == [];
    assert ep in All(u);
    assert Final(EMPTY, run) == Final(t, run[1..]) == Final(u, run[1..][1..]) == u;
    assert Legal(u, more[1..][1..]);
    assert Legal(t, more[1..]);
  }

  // --------------------------------------------------------------- the class

  ghost function Behind(taken: seq<EndPoint>, t: Table): Table {
    t.(active := taken + t.active)
  }

  lemma NextWanted(taken: seq<EndPoint>, all: seq<EndPoint>, wanted: seq<Address>, created: nat)
    requires wanted != []
    ensures var at := FindAddress(all, wanted[0]);
            Behind(taken, Reconcile(all, wanted, created))
            == if at < |all| then Behind(taken + [all[at]], Reconcile(Drop(all, at), wanted[1..], created))
               else Behind(taken + [EndPoint(created, wanted[0])], Reconcile(all, wanted[1..], created + 1))
  {
    var at := FindAddress(all, wanted[0]);
    var last := if at < |all| then all[at] else EndPoint(created, wanted[0]);
    var t := if at < |all| then Reconcile(Drop(all, at), wanted[1..], created)
             else Reconcile(all, wanted[1..], created + 1);
    assert taken + ([last] + t.active) == taken + [last] + t.active;
  }

  lemma DropAllSnoc(kept: seq<EndPoint>, rest: seq<EndPoint>, ep: EndPoint)
    requires rest != []
    ensures kept + DropAll(rest, ep) == (if rest[0] == ep then kept else kept + [rest[0]]) + DropAll(rest[1..], ep)
  {
  }

  class EndPointLists {
    var active: seq<EndPoint>
    var inactive: seq<EndPoint>
    var created: nat

    constructor ()
      ensures View() == EMPTY
    {
      active, inactive, created := [], [], 0;
    }

    function View(): Table
      reads this
    {
      Table(active, inactive, created)
    }

    method UpdateEndPoints(wanted: seq<Address>)
      modifies this
      ensures View() == Update(old(View()), wanted)
    {
      active, inactive, created := FollowRegistry(active + inactive, wanted, created);
    }

    /** The outer loop of updateEndPoints, over `known`, every endpoint there was. */
    static method FollowRegistry(known: seq<EndPoint>, wanted: seq<Address>, first: nat)
        returns (active: seq<EndPoint>, all: seq<EndPoint>, created: nat)
      ensures Table(active, all, created) == Reconcile(known, wanted, first)
    {
      ghost var goal := Reconcile(known, wanted, first);
      active, all, created := [], known, first;
      var rest := wanted;
      assert Behind([], goal) == goal;
      while rest != []
        invariant goal == Behind(active, Reconcile(all, rest, created))
        decreases |rest|
      {
        NextWanted(active, all, rest, created);
        var at := Search(all, rest[0]);
        if at < |all| {
          active := active + [all[at]];
          all := Drop(all, at);
        } else {
          active := active + [EndPoint(created, rest[0])];
          created := created + 1;
        }
        rest := rest[1..];
      }
    }

    /** The inner loop of updateEndPoints. */
    static method Search(all: seq<EndPoint>, address: Address) returns (at: nat)
      ensures at == FindAddress(all, address)
    {
      at := 0;
      while at < |all| && all[at].address != address
        invariant 0 <= at <= |all|
        invariant FindAddress(all, address) == at + FindAddress(all[at..], address)
      {
        assert all[at..][1..] == all[at + 1..];
        at := at + 1;
      }
    }

    /** moveToInactive, with the second loop erasing from the inactive list. */
    method Deactivate(ep: EndPoint)
      modifies this
      ensures View() == MoveToInactive(old(View()), ep)
    {
      var at := SearchEndPoint(active, ep);
      if at < |active| {
        active := active[..at] + active[at + 1..];
      }
      var kept := Filter(inactive, ep);
      inactive := kept + [ep];
    }

    static method SearchEndPoint(all: seq<EndPoint>, ep: EndPoint) returns (at: nat)
      ensures at == FindEndPoint(all, ep)
    {
      at := 0;
      while at < |all| && all[at] != ep
        invariant 0 <= at <= |all|
        invariant FindEndPoint(all, ep) == at + FindEndPoint(all[at..], ep)
      {
        assert all[at..][1..] == all[at + 1..];
        at := at + 1;
      }
    }

    static method Filter(all: seq<EndPoint>, ep: EndPoint) returns (kept: seq<EndPoint>)
      ensures kept == DropAll(all, ep)
    {
      kept := [];
      var i := 0;
      while i < |all|
        invariant 0 <= i <= |all|
        invariant DropAll(all, ep) == kept + DropAll(all[i..], ep)
      {
        assert all[i..][1..] == all[i + 1..];
        DropAllSnoc(kept, all[i..], ep);
        if all[i] != ep {
          kept := kept + [all[i]];
        }
        i := i + 1;
      }
    }
  }
}
