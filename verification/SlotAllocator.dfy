/** SocketLoop::getNewSocket (source/net/socket_loop.cpp): a wrapping atomic counter and compare-and-swap slots. */
module SlotAllocator {
  import opened Bytes

  /** Values of m_allocId that are not negative; its successor wraps to the most negative int32 and is masked to 0. */
  const IDS: int := 0x8000_0000

  datatype Status = Idle | Reserve | Listen | Connecting | Connected

  /** __sync_add_and_fetch, and the masking of a negative result, run by one thread alone. */
  function NextId(allocId: int): (id: int)
    requires -1 <= allocId < IDS
    ensures 0 <= id < IDS
  {
    if allocId + 1 == IDS then 0 else allocId + 1
  }

  /** The slot the scan looks at in its turn `i`, when it starts with counter value `allocId`. */
  function SlotAt(allocId: int, slots: int, i: nat): (slot: int)
    requires -1 <= allocId < IDS && 0 < slots < IDS
    ensures 0 <= slot < slots
  {
    (allocId + 1 + i) % IDS % slots
  }

  function CounterAfter(allocId: int, turns: nat): (c: int)
    requires -1 <= allocId < IDS
    ensures -1 <= c < IDS
  {
    if turns == 0 then allocId else (allocId + turns) % IDS
  }

  lemma NextIsSlotAt(allocId: int, i: nat)
    requires -1 <= allocId < IDS
    ensures NextId(CounterAfter(allocId, i)) == (allocId + 1 + i) % IDS == CounterAfter(allocId, i + 1)
  {
    var x := allocId + i;
    if i > 0 {
      assert x % IDS + 1 == IDS ==> (x + 1) % IDS == 0;
      assert x % IDS + 1 < IDS ==> (x + 1) % IDS == x % IDS + 1;
    }
  }

  /** The slots looked at in turns before `i` are all in use. */
  ghost predicate BusyBefore(status: seq<Status>, allocId: int, i: nat)
    requires -1 <= allocId < IDS && |status| < IDS && (i > 0 ==> |status| > 0)
  {
    forall j :: 0 <= j < i ==> status[SlotAt(allocId, |status|, j)] != Idle
  }

  /** The scan's answer: the slot of the first turn that finds one idle, or nothing when every turn finds one in use. */
  ghost predicate ScanAnswer(status: seq<Status>, allocId: int, slot: Option<nat>, turns: nat)
    requires -1 <= allocId < IDS && |status| < IDS
  {
    && turns <= |status|
    && match slot
       case None => turns == |status| && BusyBefore(status, allocId, turns)
       case Some(at) =>
         && turns > 0 && at == SlotAt(allocId, |status|, turns - 1) && status[at] == Idle
         && BusyBefore(status, allocId, turns - 1)
  }

  class SlotTable {
    var status: array<Status>
    var allocId: int

    ghost predicate Valid()
      reads this
    {
      -1 <= allocId < IDS && status.Length < IDS
    }

    constructor (maxSocket: nat)
      requires maxSocket < IDS
      ensures Valid() && fresh(status) && allocId == -1 && status.Length == maxSocket
      ensures forall i :: 0 <= i < maxSocket ==> status[i] == Idle
    {
      status := new Status[maxSocket](_ => Idle);
      allocId := -1;
    }

    /** getNewSocket with no other thread in it: the first idle slot in scan order is reserved, after `turns` turns. */
    method GetNewSocket() returns (slot: Option<nat>, ghost turns: nat)
      requires Valid()
      modifies this`allocId, status
      ensures Valid()
      ensures ScanAnswer(old(status[..]), old(allocId), slot, turns)
      ensures allocId == CounterAfter(old(allocId), turns)
      ensures slot.Some? ==> slot.value < status.Length
      ensures status[..] == if slot.Some? then old(status[..])[slot.value := Reserve] else old(status[..])
    {
      ghost var was := status[..];
      var i := 0;
      while i < status.Length
        invariant 0 <= i <= status.Length && Valid()
        invariant allocId == CounterAfter(old(allocId), i)
        invariant status[..] == was && BusyBefore(was, old(allocId), i)
      {
        NextIsSlotAt(old(allocId), i);
        allocId := NextId(allocId);
        var at := allocId % status.Length;
        assert at == SlotAt(old(allocId), status.Length, i);
        if status[at] == Idle {
          assert was[at] == Idle;
          status[at] := Reserve;
          assert status[..] == was[at := Reserve];
          return Some(at), i + 1;
        }
        assert was[at] != Idle;
        i := i + 1;
      }
      slot, turns := None, i;
    }
  }

  // ------------------------------------------------------------ coverage

  /** The scan looks at every slot. */
  ghost predicate Covers(allocId: int, slots: int)
    requires -1 <= allocId < IDS && 0 < slots < IDS
  {
    forall slot :: 0 <= slot < slots ==> Visits(allocId, slots, slot)
  }

  ghost predicate Visits(allocId: int, slots: int, slot: int)
    requires -1 <= allocId < IDS && 0 < slots < IDS
  {
    exists i :: 0 <= i < slots && SlotAt(allocId, slots, i) == slot
  }

  /** The first id the scan draws. */
  function FirstId(allocId: int): int
    requires -1 <= allocId < IDS
  {
    NextId(allocId)
  }

  lemma ModUnique(x: int, n: int, q: int, r: int)
    requires n > 0 && 0 <= r < n && x == q * n + r
    ensures x % n == r && x / n == q
  {
    var d := x / n - q;
    assert x == x / n * n + x % n;
    assert (x / n) * n - q * n == d * n by { Distribute(x / n, q, n); }
    if d >= 1 {
      assert d * n >= n by { Scale(1, d, n); }
    } else if d <= -1 {
      assert d * n <= -n by { Scale(d, -1, n); }
    }
  }

  lemma Distribute(a: int, b: int, n: int)
    ensures a * n - b * n == (a - b) * n
  {
  }

  lemma Scale(a: int, b: int, n: int)
    requires a <= b && n > 0
    ensures a * n <= b * n
  {
  }

  /** Among `slots` consecutive numbers there is one of each residue. */
  lemma ConsecutiveCover(from: nat, slots: int, slot: int) returns (i: nat)
    requires 0 <= slot < slots
    ensures i < slots && (from + i) % slots == slot
  {
    var r, q := from % slots, from / slots;
    assert from == q * slots + r;
    if slot >= r {
      i := slot - r;
      ModUnique(from + i, slots, q, slot);
    } else {
      i := slot - r + slots;
      assert (q + 1) * slots == q * slots + slots;
      ModUnique(from + i, slots, q + 1, slot);
    }
  }

  lemma DividesMod(x: nat, slots: int)
    requires slots > 0 && IDS % slots == 0
    ensures x % IDS % slots == x % slots
  {
    var k, q, y := IDS / slots, x / IDS, x % IDS;
    var p, r := y / slots, y % slots;
    assert x == q * IDS + y && IDS == k * slots && y == p * slots + r;
    assert q * (k * slots) == (q * k) * slots;
    assert (q * k) * slots + p * slots == (q * k + p) * slots;
    ModUnique(x, slots, q * k + p, r);
  }

  lemma CoversWhenSafe(allocId: int, slots: int)
    requires -1 <= allocId < IDS && 0 < slots < IDS
    requires FirstId(allocId) + slots <= IDS || IDS % slots == 0
    ensures Covers(allocId, slots)
  {
    forall slot | 0 <= slot < slots ensures Visits(allocId, slots, slot) {
      var first := FirstId(allocId);
      var i := ConsecutiveCover(first, slots, slot);
      SafeTurn(allocId, slots, i);
      assert SlotAt(allocId, slots, i) == slot;
    }
  }

  lemma SameTurn(allocId: int, i: nat)
    requires -1 <= allocId < IDS
    ensures (allocId + 1 + i) % IDS == (FirstId(allocId) + i) % IDS
  {
    if allocId + 1 == IDS {
      assert (IDS + i) % IDS == i % IDS;
    }
  }

  lemma SafeTurn(allocId: int, slots: int, i: nat)
    requires -1 <= allocId < IDS && 0 < slots < IDS && i < slots
    requires FirstId(allocId) + slots <= IDS || IDS % slots == 0
    ensures SlotAt(allocId, slots, i) == (FirstId(allocId) + i) % slots
  {
    SameTurn(allocId, i);
    if FirstId(allocId) + slots > IDS {
      DividesMod(FirstId(allocId) + i, slots);
    }
  }

  lemma ResiduesDiffer(x: nat, n: int, d: nat)
    requires 0 < d < n
    ensures (x + d) % n != x % n
  {
    var q, r := x / n, x % n;
    assert x == q * n + r;
    if r + d < n {
      ModUnique(x + d, n, q, r + d);
    } else {
      assert (q + 1) * n == q * n + n;
      ModUnique(x + d, n, q + 1, r + d - n);
    }
  }

  /** Under the same condition no slot is looked at twice. */
  lemma TurnsDiffer(allocId: int, slots: int, i: nat, j: nat)
    requires -1 <= allocId < IDS && 0 < slots < IDS && i < j < slots
    requires FirstId(allocId) + slots <= IDS || IDS % slots == 0
    ensures SlotAt(allocId, slots, i) != SlotAt(allocId, slots, j)
  {
    SafeTurn(allocId, slots, i);
    SafeTurn(allocId, slots, j);
    ResiduesDiffer(FirstId(allocId) + i, slots, j - i);
  }

  /** The slot a scan misses when the counter wraps inside it and the slot count does not divide 2^31. */
  function Missed(allocId: int, slots: int): (slot: int)
    requires -1 <= allocId < IDS && 0 < slots < IDS
    requires FirstId(allocId) + slots > IDS && IDS % slots != 0
    ensures 0 < slot < slots
  {
    var after, r := FirstId(allocId) + slots - IDS, IDS % slots;
    if r < after then after else r
  }

  lemma MissedTurn(allocId: int, slots: int, i: nat)
    requires -1 <= allocId < IDS && 0 < slots < IDS && i < slots
    requires FirstId(allocId) + slots > IDS && IDS % slots != 0
    ensures SlotAt(allocId, slots, i) != Missed(allocId, slots)
  {
    var first := FirstId(allocId);
    var after, r, q := first + slots - IDS, IDS % slots, IDS / slots;
    SameTurn(allocId, i);
    var x := first + i;
    assert IDS == q * slots + r;
    if x >= IDS {
      ModUnique(x, IDS, 1, x - IDS);
      ModUnique(x - IDS, slots, 0, x - IDS);
    } else {
      ModUnique(x, IDS, 0, x);
      var back := IDS - x;
      if back <= r {
        ModUnique(x, slots, q, r - back);
      } else {
        assert (q - 1) * slots == q * slots - slots;
        ModUnique(x, slots, q - 1, slots + r - back);
      }
    }
  }

  /**
   Run alone, the scan looks at every slot exactly when the counter does not wrap inside the scan or the number of
   slots divides 2^31, as the default 1024 does.
   */
  lemma ScanCoversIff(allocId: int, slots: int)
    requires -1 <= allocId < IDS && 0 < slots < IDS
    ensures Covers(allocId, slots) <==> FirstId(allocId) + slots <= IDS || IDS % slots == 0
  {
    if FirstId(allocId) + slots <= IDS || IDS % slots == 0 {
      CoversWhenSafe(allocId, slots);
    } else {
      var slot := Missed(allocId, slots);
      forall i: nat | i < slots ensures SlotAt(allocId, slots, i) != slot {
        MissedTurn(allocId, slots, i);
      }
      assert !Visits(allocId, slots, slot);
    }
  }

  /** Every slot is in use. */
  ghost predicate AllBusy(status: seq<Status>) {
    forall k :: 0 <= k < |status| ==> status[k] != Idle
  }

  /**
   "Returns NULL only if every slot is busy" holds of a scan, for all slot contents, exactly under the same condition.
   */
  lemma NullMeansFullIff(allocId: int, slots: int)
    requires -1 <= allocId < IDS && 0 < slots < IDS
    ensures (forall status: seq<Status> ::
               |status| == slots && ScanAnswer(status, allocId, None, slots) ==> AllBusy(status))
            <==> FirstId(allocId) + slots <= IDS || IDS % slots == 0
  {
    if FirstId(allocId) + slots <= IDS || IDS % slots == 0 {
      CoversWhenSafe(allocId, slots);
      forall status: seq<Status> | |status| == slots && ScanAnswer(status, allocId, None, slots)
        ensures AllBusy(status)
      {
        forall k | 0 <= k < |status| ensures status[k] != Idle {
          assert Visits(allocId, slots, k);
        }
      }
    } else {
      var slot := Missed(allocId, slots);
      var status := seq(slots, k => if k == slot then Idle else Connected);
      forall i | 0 <= i < slots ensures status[SlotAt(allocId, slots, i)] != Idle {
        MissedTurn(allocId, slots, i);
      }
      assert ScanAnswer(status, allocId, None, slots) && status[slot] == Idle;
    }
  }

  /** With three slots and the counter two below the wrap, an idle slot is missed. */
  lemma WrapMissesIdleSlot()
    ensures ScanAnswer([Connected, Connected, Idle], IDS - 2, None, 3)
  {
    assert SlotAt(IDS - 2, 3, 0) == 1 && SlotAt(IDS - 2, 3, 1) == 0 && SlotAt(IDS - 2, 3, 2) == 1;
  }

  // --------------------------------------------------------- interleavings

  /**
   Where a caller is in getNewSocket: about to draw an id, to mask a negative one, to look at the slot, to swap it, or
   out with a slot (or, after enough turns, with nothing).
   */
  datatype Pc =
    | Draw(turn: nat)
    | Mask(turn: nat)
    | Look(turn: nat, slot: nat)
    | Swap(turn: nat, slot: nat)
    | Out(result: Option<nat>)

  /** What happened to slots: handed to a caller, or given back. */
  datatype Mark = Granted(slot: nat, caller: nat) | Freed(slot: nat)

  datatype State = State(allocId: int, status: seq<Status>, callers: map<nat, Pc>, history: seq<Mark>)

  datatype Event =
    | Enter(caller: nat)
    | Step(caller: nat)
    | Use(slot: nat, status: Status)
    | Free(slot: nat)

  predicate Enabled(s: State, e: Event) {
    match e
    case Enter(caller) => caller in s.callers ==> s.callers[caller].Out?
    case Step(caller) => caller in s.callers && !s.callers[caller].Out?
    case Use(slot, status) => slot < |s.status| && s.status[slot] != Idle && status != Idle
    case Free(slot) => slot < |s.status| && s.status[slot] != Idle
  }

  /** The counter is an int32: adding one to the largest gives the smallest. */
  function WrapAdd(allocId: int): int {
    if allocId + 1 == IDS then -IDS else allocId + 1
  }

  /** hash(id). */
  function Slot(s: State, id: int): nat {
    if |s.status| == 0 then 0 else id % |s.status|
  }

  function Move(s: State, caller: nat, pc: Pc): State {
    s.(callers := s.callers[caller := pc])
  }

  function StepOf(s: State, caller: nat, pc: Pc): State
    requires !pc.Out?
  {
    match pc
    case Draw(turn) =>
      if turn >= |s.status| then Move(s, caller, Out(None))
      else
        var id := WrapAdd(s.allocId);
        Move(s.(allocId := id), caller, if id < 0 then Mask(turn) else Look(turn, Slot(s, id)))
    case Mask(turn) =>
      // __sync_and_and_fetch(&m_allocId, 0x7fffffff)
      var id := s.allocId % IDS;
      Move(s.(allocId := id), caller, Look(turn, Slot(s, id)))
    case Look(turn, slot) =>
      Move(s, caller, if slot < |s.status| && s.status[slot] == Idle then Swap(turn, slot) else Draw(turn + 1))
    case Swap(turn, slot) =>
      if slot < |s.status| && s.status[slot] == Idle then
        var taken := s.(status := s.status[slot := Reserve], history := s.history + [Granted(slot, caller)]);
        Move(taken, caller, Out(Some(slot)))
      else Move(s, caller, Draw(turn))
  }

  function Apply(s: State, e: Event): State
    requires Enabled(s, e)
  {
    match e
    case Enter(caller) => Move(s, caller, Draw(0))
    case Step(caller) => StepOf(s, caller, s.callers[caller])
    case Use(slot, status) => s.(status := s.status[slot := status])
    case Free(slot) => s.(status := s.status[slot := Idle], history := s.history + [Freed(slot)])
  }

  ghost predicate Legal(s: State, run: seq<Event>)
    decreases |run|
  {
    run == [] || (Enabled(s, run[0]) && Legal(Apply(s, run[0]), run[1..]))
  }

  ghost function Final(s: State, run: seq<Event>): State
    requires Legal(s, run)
    decreases |run|
  {
    if run == [] then s else Final(Apply(s, run[0]), run[1..])
  }

  function Initial(slots: nat): State {
    State(-1, seq(slots, _ => Idle), map[], [])
  }

  ghost predicate FreedBetween(history: seq<Mark>, slot: nat, from: int, to: int) {
    exists k :: from < k < to && 0 <= k < |history| && history[k] == Freed(slot)
  }

  predicate Grants(history: seq<Mark>, i: int, slot: nat) {
    0 <= i < |history| && history[i].Granted? && history[i].slot == slot
  }

  /** Between two grants of one slot it was given back. */
  ghost predicate GrantsApart(history: seq<Mark>) {
    forall slot: nat, i: int, j: int ::
      Grants(history, i, slot) && Grants(history, j, slot) && i < j ==> FreedBetween(history, slot, i, j)
  }

  /** Every grant of a slot that is idle now has been given back. */
  ghost predicate IdleGivenBack(s: State) {
    forall slot: nat, i: int :: slot < |s.status| && s.status[slot] == Idle && Grants(s.history, i, slot)
                      ==> FreedBetween(s.history, slot, i, |s.history|)
  }

  lemma FreedStays(history: seq<Mark>, mark: Mark, slot: nat, from: int, to: int)
    requires FreedBetween(history, slot, from, to) && to <= |history|
    ensures FreedBetween(history + [mark], slot, from, to)
    ensures FreedBetween(history + [mark], slot, from, |history| + 1)
  {
    var k :| from < k < to && 0 <= k < |history| && history[k] == Freed(slot);
    assert (history + [mark])[k] == Freed(slot);
  }

  lemma GrantKeeps(s: State, slot: nat, caller: nat)
    requires GrantsApart(s.history) && IdleGivenBack(s) && slot < |s.status| && s.status[slot] == Idle
    ensures var t := s.(status := s.status[slot := Reserve], history := s.history + [Granted(slot, caller)]);
            GrantsApart(t.history) && IdleGivenBack(t)
  {
    var mark := Granted(slot, caller);
    var h := s.history + [mark];
    forall sl: nat, i: int, j: int | Grants(h, i, sl) && Grants(h, j, sl) && i < j ensures FreedBetween(h, sl, i, j) {
      assert Grants(s.history, i, sl);
      if j < |s.history| {
        assert Grants(s.history, j, sl);
        FreedStays(s.history, mark, sl, i, j);
      } else {
        FreedStays(s.history, mark, sl, i, |s.history|);
      }
    }
    var t := s.(status := s.status[slot := Reserve], history := h);
    forall sl: nat, i: int | sl < |t.status| && t.status[sl] == Idle && Grants(h, i, sl)
      ensures FreedBetween(h, sl, i, |h|)
    {
      assert Grants(s.history, i, sl);
      FreedStays(s.history, mark, sl, i, |s.history|);
    }
  }

  lemma FreeKeeps(s: State, slot: nat)
    requires GrantsApart(s.history) && IdleGivenBack(s) && slot < |s.status|
    ensures var t := s.(status := s.status[slot := Idle], history := s.history + [Freed(slot)]);
            GrantsApart(t.history) && IdleGivenBack(t)
  {
    var mark := Freed(slot);
    var h := s.history + [mark];
    forall sl: nat, i: int, j: int | Grants(h, i, sl) && Grants(h, j, sl) && i < j ensures FreedBetween(h, sl, i, j) {
      assert Grants(s.history, i, sl) && Grants(s.history, j, sl);
      FreedStays(s.history, mark, sl, i, j);
    }
    var t := s.(status := s.status[slot := Idle], history := h);
    forall sl: nat, i: int | sl < |t.status| && t.status[sl] == Idle && Grants(h, i, sl)
      ensures FreedBetween(h, sl, i, |h|)
    {
      assert Grants(s.history, i, sl);
      if sl == slot {
        assert h[|s.history|] == Freed(slot);
      } else {
        FreedStays(s.history, mark, sl, i, |s.history|);
      }
    }
  }

  lemma StepKeeps(s: State, e: Event)
    requires GrantsApart(s.history) && IdleGivenBack(s) && Enabled(s, e)
    ensures GrantsApart(Apply(s, e).history) && IdleGivenBack(Apply(s, e))
  {
    match e
    case Enter(_) =>
    case Step(caller) =>
      var pc := s.callers[caller];
      if pc.Swap? && pc.slot < |s.status| && s.status[pc.slot] == Idle {
        GrantKeeps(s, pc.slot, caller);
      }
    case Use(_, _) =>
    case Free(slot) => FreeKeeps(s, slot);
  }

  lemma {:induction false} RunKeeps(s: State, run: seq<Event>)
    requires GrantsApart(s.history) && IdleGivenBack(s) && Legal(s, run)
    ensures GrantsApart(Final(s, run).history)
    decreases |run|
  {
    if run != [] {
      StepKeeps(s, run[0]);
      RunKeeps(Apply(s, run[0]), run[1..]);
    }
  }

  /**
   Under every interleaving of any number of callers and of the users of the slots, a slot is never handed to a second
   caller while it is in use: between two grants of it, it was given back.
   */
  lemma NoSlotGrantedTwice(slots: nat, run: seq<Event>, slot: nat, i: nat, j: nat)
    requires Legal(Initial(slots), run)
    requires var h := Final(Initial(slots), run).history; Grants(h, i, slot) && Grants(h, j, slot) && i < j
    ensures FreedBetween(Final(Initial(slots), run).history, slot, i, j)
  {
    RunKeeps(Initial(slots), run);
  }

  // ------------------------------------------------------- NULL under contention

  /** A draw of an id by another caller. */
  predicate OtherDraws(s: State, e: Event, caller: nat) {
    && e.Step? && e.caller != caller && e.caller in s.callers
    && s.callers[e.caller].Draw? && s.callers[e.caller].turn < |s.status|
  }

  ghost function OthersDraws(s: State, run: seq<Event>, caller: nat): nat
    requires Legal(s, run)
    decreases |run|
  {
    if run == [] then 0
    else (if OtherDraws(s, run[0], caller) then 1 else 0) + OthersDraws(Apply(s, run[0]), run[1..], caller)
  }

  predicate GotNull(s: State, caller: nat) {
    caller in s.callers && s.callers[caller] == Out(None)
  }

  ghost predicate AreIdle(s: State, idle: set<nat>) {
    forall slot <- idle :: slot < |s.status| && s.status[slot] == Idle
  }

  /** The slots in `idle` are idle from beginning to end. */
  ghost predicate StayIdle(s: State, run: seq<Event>, idle: set<nat>)
    requires Legal(s, run)
    decreases |run|
  {
    AreIdle(s, idle) && (run != [] ==> StayIdle(Apply(s, run[0]), run[1..], idle))
  }

  /**
   What a caller's scan has done: `draws` ids were drawn since the counter stood at `base`, `others` of them by other
   callers; the caller has been through the ids at the places in `seen`, and is at the place `at` now.
   */
  datatype Scan = Scan(base: nat, draws: nat, others: nat, seen: set<nat>, at: nat)

  function PlaceSlot(base: nat, slots: nat, place: nat): nat
    requires slots > 0
  {
    (base + place) % IDS % slots
  }

  ghost predicate SeenBusy(w: Scan, slots: nat, idle: set<nat>)
    requires slots > 0
  {
    forall p <- w.seen :: 1 <= p <= w.draws && PlaceSlot(w.base, slots, p) !in idle
  }

  /** Where the scan is while it looks at a slot. */
  ghost predicate AtPlace(w: Scan, slots: nat, slot: nat)
    requires slots > 0
  {
    1 <= w.at <= w.draws && slot == PlaceSlot(w.base, slots, w.at) && forall p <- w.seen :: p < w.at
  }

  ghost predicate PcFits(w: Scan, slots: nat, pc: Pc)
    requires slots > 0
  {
    match pc
    case Draw(turn) => |w.seen| >= turn && |w.seen| + w.others == w.draws
    case Mask(turn) =>
      |w.seen| >= turn && |w.seen| + 1 + w.others == w.draws && forall p <- w.seen :: p < w.draws
    case Look(turn, slot) => |w.seen| >= turn && |w.seen| + 1 + w.others == w.draws && AtPlace(w, slots, slot)
    case Swap(turn, slot) => |w.seen| >= turn && |w.seen| + 1 + w.others == w.draws && AtPlace(w, slots, slot)
    case Out(result) => result.None? ==> |w.seen| >= slots && |w.seen| + w.others == w.draws
  }

  ghost predicate Tracks(s: State, caller: nat, idle: set<nat>, w: Scan) {
    && |s.status| > 0 && s.allocId < IDS && s.allocId % IDS == (w.base + w.draws) % IDS
    && caller in s.callers && SeenBusy(w, |s.status|, idle) && PcFits(w, |s.status|, s.callers[caller])
  }

  lemma DrawAdvances(allocId: int, base: nat, draws: nat)
    requires allocId < IDS && allocId % IDS == (base + draws) % IDS
    ensures WrapAdd(allocId) < IDS && WrapAdd(allocId) % IDS == (base + (draws + 1)) % IDS
    ensures WrapAdd(allocId) >= 0 ==> WrapAdd(allocId) == (base + (draws + 1)) % IDS
  {
    var x := base + draws;
    assert (allocId + 1) % IDS == (x + 1) % IDS by {
      assert x % IDS + 1 == IDS ==> (x + 1) % IDS == 0 && (allocId + 1) % IDS == 0;
    }
  }

  lemma OwnDrawTracks(s: State, caller: nat, idle: set<nat>, w: Scan) returns (v: Scan)
    requires Tracks(s, caller, idle, w) && s.callers[caller].Draw?
    ensures Tracks(Apply(s, Step(caller)), caller, idle, v) && v.others == w.others
  {
    v := w;
    if s.callers[caller].turn < |s.status| {
      v := w.(draws := w.draws + 1, at := w.draws + 1);
      DrawAdvances(s.allocId, w.base, w.draws);
      DrawFits(w, s, WrapAdd(s.allocId), s.callers[caller].turn);
    }
  }

  lemma DrawFits(w: Scan, s: State, id: int, turn: nat)
    requires |s.status| > 0 && PcFits(w, |s.status|, Draw(turn)) && forall p <- w.seen :: p <= w.draws
    requires id >= 0 ==> id == (w.base + (w.draws + 1)) % IDS
    ensures var v := w.(draws := w.draws + 1, at := w.draws + 1);
            PcFits(v, |s.status|, if id < 0 then Mask(turn) else Look(turn, Slot(s, id)))
  {
  }

  lemma OwnMaskTracks(s: State, caller: nat, idle: set<nat>, w: Scan) returns (v: Scan)
    requires Tracks(s, caller, idle, w) && s.callers[caller].Mask?
    ensures Tracks(Apply(s, Step(caller)), caller, idle, v) && v.others == w.others
  {
    v := w.(at := w.draws);
  }

  lemma OwnLookTracks(s: State, caller: nat, idle: set<nat>, w: Scan) returns (v: Scan)
    requires Tracks(s, caller, idle, w) && AreIdle(s, idle) && (s.callers[caller].Look? || s.callers[caller].Swap?)
    ensures Tracks(Apply(s, Step(caller)), caller, idle, v) && v.others == w.others
  {
    var slot := s.callers[caller].slot;
    v := w;
    if s.status[slot] != Idle {
      v := w.(seen := w.seen + {w.at});
      assert w.at !in w.seen;
    }
  }

  lemma OtherTracks(s: State, e: Event, caller: nat, idle: set<nat>, w: Scan) returns (v: Scan)
    requires Tracks(s, caller, idle, w) && Enabled(s, e) && e != Step(caller) && e != Enter(caller)
    ensures Tracks(Apply(s, e), caller, idle, v)
    ensures v.others == w.others + if OtherDraws(s, e, caller) then 1 else 0
  {
    v := w;
    if OtherDraws(s, e, caller) {
      v := w.(draws := w.draws + 1, others := w.others + 1);
      DrawAdvances(s.allocId, w.base, w.draws);
    }
  }

  lemma StepTracks(s: State, e: Event, caller: nat, idle: set<nat>, w: Scan) returns (v: Scan)
    requires Tracks(s, caller, idle, w) && AreIdle(s, idle) && Enabled(s, e) && e != Enter(caller)
    ensures Tracks(Apply(s, e), caller, idle, v)
    ensures v.others == w.others + if OtherDraws(s, e, caller) then 1 else 0
  {
    if e != Step(caller) {
      v := OtherTracks(s, e, caller, idle, w);
    } else if s.callers[caller].Draw? {
      v := OwnDrawTracks(s, caller, idle, w);
    } else if s.callers[caller].Mask? {
      v := OwnMaskTracks(s, caller, idle, w);
    } else {
      v := OwnLookTracks(s, caller, idle, w);
    }
  }

  lemma {:induction false} ImageSize(places: set<nat>, base: nat, slots: nat)
    requires slots > 0
    ensures |set p <- places :: PlaceSlot(base, slots, p)| <= |places|
  {
    if places != {} {
      var p :| p in places;
      ImageSize(places - {p}, base, slots);
      assert (set q <- places :: PlaceSlot(base, slots, q))
             == (set q <- places - {p} :: PlaceSlot(base, slots, q)) + {PlaceSlot(base, slots, p)};
    }
  }

  ghost function Places(n: nat): (r: set<nat>)
    ensures |r| == n && forall p :: p in r <==> 1 <= p <= n
  {
    if n == 0 then {} else Places(n - 1) + {n}
  }

  /** Idle slots were missed at places that other callers drew. */
  lemma MissedPlaces(w: Scan, slots: nat, idle: set<nat>)
    requires 0 < slots && IDS % slots == 0 && SeenBusy(w, slots, idle) && forall k <- idle :: k < slots
    requires |w.seen| >= slots && |w.seen| + w.others == w.draws
    ensures |idle| <= w.others
  {
    var missed := Places(w.draws) - w.seen;
    assert |missed| == w.others by {
      assert w.seen <= Places(w.draws);
    }
    var image := set p <- missed :: PlaceSlot(w.base, slots, p);
    forall k <- idle ensures k in image {
      var i := ConsecutiveCover(w.base + 1, slots, k);
      DividesMod(w.base + 1 + i, slots);
      assert PlaceSlot(w.base, slots, i + 1) == k && i + 1 in missed;
    }
    ImageSize(missed, w.base, slots);
    SubsetSize(idle, image);
  }

  lemma {:induction false} SubsetSize(a: set<nat>, b: set<nat>)
    requires a <= b
    ensures |a| <= |b|
  {
    if a != {} {
      var x :| x in a;
      SubsetSize(a - {x}, b - {x});
    }
  }

  lemma {:induction false} CallTracks(s: State, call: seq<Event>, caller: nat, idle: set<nat>, w: Scan)
    requires Legal(s, call) && forall i :: 0 <= i < |call| ==> call[i] != Enter(caller)
    requires Tracks(s, caller, idle, w) && IDS % |s.status| == 0 && StayIdle(s, call, idle)
    requires GotNull(Final(s, call), caller)
    ensures |idle| <= w.others + OthersDraws(s, call, caller)
    decreases |call|
  {
    if call == [] {
      MissedPlaces(w, |s.status|, idle);
    } else {
      var v := StepTracks(s, call[0], caller, idle, w);
      CallTracks(Apply(s, call[0]), call[1..], caller, idle, v);
    }
  }

  /** A call of getNewSocket, from its entry to the NULL it returns, during which the slots in `idle` stay idle. */
  ghost predicate NullCall(s: State, caller: nat, call: seq<Event>, idle: set<nat>) {
    && Legal(s, call) && (forall i :: 0 <= i < |call| ==> call[i] != Enter(caller))
    && GotNull(Final(s, call), caller) && StayIdle(s, call, idle)
  }

  lemma {:induction false} CounterStays(s: State, run: seq<Event>)
    requires Legal(s, run) && s.allocId < IDS
    ensures Final(s, run).allocId < IDS && |Final(s, run).status| == |s.status|
    decreases |run|
  {
    if run != [] {
      CounterStays(Apply(s, run[0]), run[1..]);
    }
  }

  lemma NullCallMisses(s: State, caller: nat, call: seq<Event>, idle: set<nat>)
    requires s.allocId < IDS && |s.status| > 0 && IDS % |s.status| == 0
    requires caller in s.callers && s.callers[caller] == Draw(0) && NullCall(s, caller, call, idle)
    ensures OthersDraws(s, call, caller) >= |idle|
  {
    var w := Scan(s.allocId % IDS, 0, 0, {}, 0);
    assert Tracks(s, caller, idle, w) by {
      assert s.allocId % IDS == (w.base + 0) % IDS;
    }
    CallTracks(s, call, caller, idle, w);
  }

  /**
   What NULL means while other callers scan too, when the slot count divides 2^31: slots that were idle during the
   whole call can be missed, but no more of them than ids were drawn by other callers meanwhile.
   */
  lemma MissedAtMostOthersDraws(slots: nat, before: seq<Event>, caller: nat, call: seq<Event>, idle: set<nat>)
    requires slots > 0 && IDS % slots == 0 && Legal(Initial(slots), before)
    requires Enabled(Final(Initial(slots), before), Enter(caller))
    requires NullCall(Apply(Final(Initial(slots), before), Enter(caller)), caller, call, idle)
    ensures OthersDraws(Apply(Final(Initial(slots), before), Enter(caller)), call, caller) >= |idle|
  {
    CounterStays(Initial(slots), before);
    NullCallMisses(Apply(Final(Initial(slots), before), Enter(caller)), caller, call, idle);
  }

  lemma Extend(s: State, e: Event, run: seq<Event>, caller: nat, idle: set<nat>)
    requires Enabled(s, e) && Legal(Apply(s, e), run) && AreIdle(s, idle) && StayIdle(Apply(s, e), run, idle)
    ensures Legal(s, [e] + run) && Final(s, [e] + run) == Final(Apply(s, e), run) && StayIdle(s, [e] + run, idle)
    ensures OthersDraws(s, [e] + run, caller)
            == (if OtherDraws(s, e, caller) then 1 else 0) + OthersDraws(Apply(s, e), run, caller)
  {
    assert ([e] + run)[1..] == run;
  }

  /** Caller 0 holds slot 0 of two, caller 1 has drawn the id of slot 1 but not looked yet, and caller 2 enters. */
  ghost function Crowded(): State {
    State(1, [Reserve, Idle], map[0 := Out(Some(0)), 1 := Look(0, 1), 2 := Draw(0)], [Granted(0, 0)])
  }

  lemma CrowdGathers() returns (before: seq<Event>)
    ensures Legal(Initial(2), before) && Enabled(Final(Initial(2), before), Enter(2))
    ensures Apply(Final(Initial(2), before), Enter(2)) == Crowded()
  {
    var s := Initial(2);
    var a := Apply(s, Enter(0));
    var b := Apply(a, Step(0));
    var c := Apply(b, Step(0));
    var d := Apply(c, Step(0));
    var e := Apply(d, Enter(1));
    Extend(e, Step(1), [], 2, {});
    Extend(d, Enter(1), [Step(1)] + [], 2, {});
    Extend(c, Step(0), [Enter(1)] + ([Step(1)] + []), 2, {});
    Extend(b, Step(0), [Step(0)] + ([Enter(1)] + ([Step(1)] + [])), 2, {});
    Extend(a, Step(0), [Step(0)] + ([Step(0)] + ([Enter(1)] + ([Step(1)] + []))), 2, {});
    Extend(s, Enter(0), [Step(0)] + ([Step(0)] + ([Step(0)] + ([Enter(1)] + ([Step(1)] + [])))), 2, {});
    before := [Enter(0)] + ([Step(0)] + ([Step(0)] + ([Step(0)] + ([Enter(1)] + ([Step(1)] + [])))));
    assert d.status == [Reserve, Idle];
    assert Apply(Apply(e, Step(1)), Enter(2)).callers == Crowded().callers;
  }

  lemma SecondLookMisses(s: State) returns (late: seq<Event>)
    requires s.allocId == 3 && s.status == [Reserve, Idle] && 2 in s.callers && s.callers[2] == Draw(1)
    ensures NullCall(s, 2, late, {1}) && OthersDraws(s, late, 2) == 0
  {
    var a := Apply(s, Step(2));
    var b := Apply(a, Step(2));
    Extend(b, Step(2), [], 2, {1});
    Extend(a, Step(2), [Step(2)] + [], 2, {1});
    Extend(s, Step(2), [Step(2)] + ([Step(2)] + []), 2, {1});
    late := [Step(2)] + ([Step(2)] + ([Step(2)] + []));
  }

  /**
   The bound is sharp: of two slots caller 2 looks at slot 0 twice, because another caller draws the id between, and
   it returns NULL although slot 1 was idle all the time.
   */
  lemma ContentionMissesIdleSlot() returns (before: seq<Event>, call: seq<Event>)
    ensures Legal(Initial(2), before) && Enabled(Final(Initial(2), before), Enter(2))
    ensures var s := Apply(Final(Initial(2), before), Enter(2));
            NullCall(s, 2, call, {1}) && OthersDraws(s, call, 2) == 1
  {
    before := CrowdGathers();
    var s := Crowded();
    var a := Apply(s, Step(2));
    var b := Apply(a, Step(2));
    var c := Apply(b, Enter(3));
    var late := SecondLookMisses(Apply(c, Step(3)));
    Extend(c, Step(3), late, 2, {1});
    Extend(b, Enter(3), [Step(3)] + late, 2, {1});
    Extend(a, Step(2), [Enter(3)] + ([Step(3)] + late), 2, {1});
    Extend(s, Step(2), [Step(2)] + ([Enter(3)] + ([Step(3)] + late)), 2, {1});
    call := [Step(2)] + ([Step(2)] + ([Enter(3)] + ([Step(3)] + late)));
  }

}
