/**
 The life of an RPC call in ServiceProxy (source/framework/storm_service_proxy.cpp) as a state machine. Caller
 threads and the net thread interleave freely; each event is one critical section or one access to shared state.
 */
module RpcLifecycle {
  import opened Bytes
  import opened TimeLists

  /** The reply timeout set in the constructor of ServiceProxy, in milliseconds. */
  const TIMEOUT: nat := 3000

  datatype Invoke = Sync | Async | OneWay
  datatype Status = Ok | TimeOut | NetError | Error
  datatype CloseType = BySelf | ByPeer | Timeout | IdleTimeout | ConnTimeOut | PacketError | ConnectFail
  datatype Response = Response(requestId: nat, body: nat)

  /** How far the caller is in doInvoke. */
  datatype Pc = Sending | Sent | Saved | Stamped(now: nat) | Armed | Returned

  /** A RequestMessage. `completions` counts the calls of finishInvoke on it that do something. */
  datatype Message = Message(
    invoke: Invoke, pc: Pc, ep: Option<nat>, status: Status, resp: Option<Response>, completions: nat)

  /** What the net thread is in the middle of, with the messages it has taken out of the pending map. */
  datatype Net =
    | Idle
    | Answering(m: nat, resp: Response)
    | Answered(m: nat, resp: Response)
    | Closing(held: set<nat>, status: Status)
    | Forgetting(id: nat, held: set<nat>, status: Status)
    | Sweeping(now: nat, start: seq<Entry>, fired: nat)
    | SweepHolding(now: nat, start: seq<Entry>, fired: nat, taken: Option<nat>)

  /**
   Messages are numbered in the order in which they took their request id. `readAt` records the clock each message
   read for its deadline, and `addedAt` which message last entered each id into the timeout list, and when.
   */
  datatype State = State(
    clock: nat, msgs: seq<Message>, pending: map<nat, nat>, timeouts: seq<Entry>, net: Net,
    readAt: map<nat, nat>, addedAt: map<nat, Added>)

  datatype Added = Added(m: nat, clock: nat)

  const INITIAL := State(0, [], map[], [], Idle, map[], map[])

  /** m_sequeue is a 32-bit counter. */
  function IdOf(m: nat): nat {
    m % U32
  }

  datatype Event =
    | Tick(elapsed: nat)
    | Begin(invoke: Invoke)
    | NoEndpoint(m: nat)
    | Send(m: nat, ep: nat)
    | Save(m: nat)
    | ReadClock(m: nat)
    | AddDeadline(m: nat)
    | Return(m: nat)
    | Packet(resp: Response)
    | ForgetAnswered
    | FinishAnswered
    | Close(ep: nat, closeType: CloseType)
    | FinishClosed(m: nat)
    | ForgetClosed
    | EndClose
    | BeginSweep(now: nat)
    | TakeDue
    | FinishDue
    | EndSweep

  predicate SweepRuns(net: Net) {
    net.Sweeping? || net.SweepHolding?
  }

  predicate At(s: State, m: nat, pc: Pc) {
    m < |s.msgs| && s.msgs[m].pc == pc
  }

  predicate Enabled(s: State, e: Event) {
    match e
    case Tick(_) => true
    case Begin(_) => true
    case NoEndpoint(m) => At(s, m, Sending)
    case Send(m, _) => At(s, m, Sending)
    case Save(m) => At(s, m, Sent) && s.msgs[m].invoke != OneWay
    case ReadClock(m) => At(s, m, Saved)
    // The timeout list is locked for the whole sweep.
    case AddDeadline(m) => m < |s.msgs| && s.msgs[m].pc.Stamped? && !SweepRuns(s.net)
    case Return(m) =>
      || (At(s, m, Sent) && s.msgs[m].invoke == OneWay)
      || (At(s, m, Armed) && (s.msgs[m].invoke == Sync ==> s.msgs[m].completions > 0))
    case Packet(_) => s.net == Idle
    case ForgetAnswered => s.net.Answering?
    case FinishAnswered => s.net.Answered? && s.net.m < |s.msgs|
    case Close(_, _) => s.net == Idle
    case FinishClosed(m) => s.net.Closing? && m in s.net.held && m < |s.msgs|
    case ForgetClosed => s.net.Forgetting?
    case EndClose => s.net.Closing? && s.net.held == {}
    case BeginSweep(now) => s.net == Idle && now <= s.clock
    case TakeDue => s.net.Sweeping? && s.timeouts != [] && s.timeouts[0].time <= s.net.now
    case FinishDue => s.net.SweepHolding? && s.timeouts != [] && (s.net.taken.Some? ==> s.net.taken.value < |s.msgs|)
    case EndSweep => s.net.Sweeping? && (s.timeouts == [] || s.timeouts[0].time > s.net.now)
  }

  function CloseStatus(closeType: CloseType): Status {
    match closeType
    case Timeout => TimeOut
    case ConnectFail => NetError
    case ConnTimeOut => NetError
    case _ => Error
  }

  /** Setting the outcome and calling finishInvoke, which does nothing for a one-way call. */
  function Finish(msg: Message, status: Status, resp: Option<Response>): Message {
    msg.(status := status, resp := resp, completions := msg.completions + if msg.invoke == OneWay then 0 else 1)
  }

  function SetPc(s: State, m: nat, pc: Pc): State
    requires m < |s.msgs|
  {
    s.(msgs := s.msgs[m := s.msgs[m].(pc := pc)])
  }

  ghost function AffectedBy(s: State, ep: nat): set<nat> {
    set r <- s.pending | s.pending[r] < |s.msgs| && s.msgs[s.pending[r]].ep == Some(ep) :: s.pending[r]
  }

  ghost function Without(s: State, ep: nat): map<nat, nat> {
    map r | r in s.pending && s.pending[r] !in AffectedBy(s, ep) :: s.pending[r]
  }

  ghost function Apply(s: State, e: Event): State
    requires Enabled(s, e)
  {
    match e
    case Tick(elapsed) => s.(clock := s.clock + elapsed)
    case Begin(invoke) => s.(msgs := s.msgs + [Message(invoke, Sending, None, TimeOut, None, 0)])
    case NoEndpoint(m) => s.(msgs := s.msgs[m := Finish(s.msgs[m], NetError, None).(pc := Returned)])
    case Send(m, ep) => s.(msgs := s.msgs[m := s.msgs[m].(pc := Sent, ep := Some(ep))])
    case Save(m) => SetPc(s, m, Saved).(pending := s.pending[IdOf(m) := m])
    case ReadClock(m) => SetPc(s, m, Stamped(s.clock)).(readAt := s.readAt[m := s.clock])
    case AddDeadline(m) =>
      SetPc(s, m, Armed).(timeouts := Append(s.timeouts, IdOf(m), s.msgs[m].pc.now + TIMEOUT),
                          addedAt := s.addedAt[IdOf(m) := Added(m, s.clock)])
    case Return(m) => SetPc(s, m, Returned)
    case Packet(resp) =>
      if resp.requestId in s.pending then
        s.(pending := s.pending - {resp.requestId}, net := Answering(s.pending[resp.requestId], resp))
      else s
    case ForgetAnswered =>
      s.(timeouts := Remove(s.timeouts, s.net.resp.requestId), net := Answered(s.net.m, s.net.resp))
    case FinishAnswered =>
      s.(msgs := s.msgs[s.net.m := Finish(s.msgs[s.net.m], Ok, Some(s.net.resp))], net := Idle)
    case Close(ep, closeType) =>
      s.(pending := Without(s, ep), net := Closing(AffectedBy(s, ep), CloseStatus(closeType)))
    case FinishClosed(m) =>
      s.(msgs := s.msgs[m := Finish(s.msgs[m], s.net.status, None)],
         net := Forgetting(IdOf(m), s.net.held - {m}, s.net.status))
    case ForgetClosed =>
      s.(timeouts := Remove(s.timeouts, s.net.id), net := Closing(s.net.held, s.net.status))
    case EndClose => s.(net := Idle)
    case BeginSweep(now) => s.(net := Sweeping(now, s.timeouts, 0))
    case TakeDue =>
      var id := s.timeouts[0].key;
      s.(pending := s.pending - {id},
         net := SweepHolding(s.net.now, s.net.start, s.net.fired,
                             if id in s.pending then Some(s.pending[id]) else None))
    case FinishDue =>
      s.(msgs := if s.net.taken.None? then s.msgs
                 else s.msgs[s.net.taken.value := Finish(s.msgs[s.net.taken.value], TimeOut, None)],
         timeouts := s.timeouts[1..],
         net := Sweeping(s.net.now, s.net.start, s.net.fired + 1))
    case EndSweep => s.(net := Idle)
  }

  ghost predicate Legal(s: State, run: seq<Event>)
    decreases |run|
  {
    run == [] || (Enabled(s, run[0]) && Legal(Apply(s, run[0]), run[1..]))
  }

  ghost function Final(s: State, run: seq<Event>): State
    requires Legal(s, run)
    decreases |run|
  {
    if run == [] then s else Final(Apply(s, run[0]), run[1..])
  }

  lemma Then(s: State, e: Event, run: seq<Event>)
    requires Enabled(s, e) && Legal(Apply(s, e), run)
    ensures Legal(s, [e] + run) && Final(s, [e] + run) == Final(Apply(s, e), run)
  {
    assert ([e] + run)[1..] == run;
  }

  lemma {:induction false} Join(s: State, first: seq<Event>, second: seq<Event>)
    requires Legal(s, first) && Legal(Final(s, first), second)
    ensures Legal(s, first + second) && Final(s, first + second) == Final(Final(s, first), second)
    decreases |first|
  {
    if first == [] {
      assert first + second == second;
    } else {
      Join(Apply(s, first[0]), first[1..], second);
      assert first + second == [first[0]] + (first[1..] + second);
      Then(s, first[0], first[1..] + second);
    }
  }

  // ------------------------------------------------------------- ownership

  /** The messages the net thread has taken out of the pending map and not completed yet. */
  function Held(net: Net): set<nat> {
    match net
    case Answering(m, _) => {m}
    case Answered(m, _) => {m}
    case Closing(held, _) => held
    case Forgetting(_, held, _) => held
    case SweepHolding(_, _, _, taken) => if taken.Some? then {taken.value} else {}
    case _ => {}
  }

  predicate PastSave(pc: Pc) {
    pc.Saved? || pc.Stamped? || pc.Armed? || pc.Returned?
  }

  /** A saved request that waits for its completion. */
  ghost predicate Waiting(s: State, m: nat) {
    m < |s.msgs| && PastSave(s.msgs[m].pc) && s.msgs[m].invoke != OneWay && s.msgs[m].completions == 0
  }

  ghost predicate PendingOwned(s: State) {
    forall r <- s.pending :: IdOf(s.pending[r]) == r && Waiting(s, s.pending[r]) && s.pending[r] !in Held(s.net)
  }

  ghost predicate HeldOwned(s: State) {
    forall m <- Held(s.net) :: Waiting(s, m)
  }

  /** A reply being delivered carries the id of the message it was taken for; a close is never a success. */
  ghost predicate OutcomeFits(net: Net) {
    && (net.Answering? || net.Answered? ==> net.resp.requestId == IdOf(net.m))
    && (net.Closing? || net.Forgetting? ==> net.status != Ok)
  }

  ghost predicate CompletedWell(s: State, m: nat)
    requires m < |s.msgs|
  {
    var msg := s.msgs[m];
    && msg.completions <= 1
    && (!PastSave(msg.pc) ==> msg.completions == 0)
    && (msg.completions == 0 ==> msg.resp.None?)
    && (msg.completions == 1 ==> (msg.status == Ok <==> msg.resp.Some?))
    && (msg.resp.Some? ==> msg.resp.value.requestId == IdOf(m))
    && (msg.invoke == Sync && msg.pc == Returned ==> msg.completions == 1)
  }

  ghost predicate AllCompletedWell(s: State) {
    forall m :: 0 <= m < |s.msgs| ==> CompletedWell(s, m)
  }

  ghost predicate Owned(s: State) {
    PendingOwned(s) && HeldOwned(s) && OutcomeFits(s.net) && AllCompletedWell(s)
  }

  /** Steps of callers, which leave the net thread alone. */
  predicate ByCaller(e: Event) {
    e.Tick? || e.Begin? || e.NoEndpoint? || e.Send? || e.Save? || e.ReadClock? || e.AddDeadline? || e.Return?
  }

  lemma CallerKeepsOwned(s: State, e: Event)
    requires Owned(s) && Enabled(s, e) && ByCaller(e)
    ensures Owned(Apply(s, e))
  {
    var t := Apply(s, e);
    forall m | Waiting(s, m) ensures Waiting(t, m) {
      assert CompletedWell(s, m);
    }
    forall m | 0 <= m < |t.msgs| ensures CompletedWell(t, m) {
      assert m < |s.msgs| ==> CompletedWell(s, m);
    }
    forall r <- t.pending ensures IdOf(t.pending[r]) == r && Waiting(t, t.pending[r]) && t.pending[r] !in Held(t.net) {
      if e.Save? && r == IdOf(e.m) {
        assert CompletedWell(s, e.m);
        assert !Waiting(s, e.m);
      }
    }
  }

  lemma NetKeepsOwned(s: State, e: Event)
    requires Owned(s) && Enabled(s, e) && !ByCaller(e)
    ensures Owned(Apply(s, e))
  {
    var t := Apply(s, e);
    forall m | 0 <= m < |t.msgs| ensures CompletedWell(t, m) {
      assert CompletedWell(s, m);
      assert m in Held(s.net) ==> Waiting(s, m);
    }
    forall m <- Held(t.net) ensures Waiting(t, m) {
      if e.Close? {
        var r :| r in s.pending && s.pending[r] == m;
        assert Waiting(s, s.pending[r]);
      } else if e.Packet? || e.TakeDue? {
        var r := if e.Packet? then e.resp.requestId else s.timeouts[0].key;
        assert r in s.pending && Waiting(s, s.pending[r]);
      } else {
        assert m in Held(s.net) && Waiting(s, m);
      }
    }
    forall r <- t.pending ensures Waiting(t, t.pending[r]) && t.pending[r] !in Held(t.net) {
      assert r in s.pending && t.pending[r] == s.pending[r];
      assert Waiting(s, s.pending[r]) && s.pending[r] !in Held(s.net);
    }
  }

  lemma StepKeepsOwned(s: State, e: Event)
    requires Owned(s) && Enabled(s, e)
    ensures Owned(Apply(s, e))
  {
    if ByCaller(e) {
      CallerKeepsOwned(s, e);
    } else {
      NetKeepsOwned(s, e);
    }
  }

  lemma {:induction false} RunKeepsOwned(s: State, run: seq<Event>)
    requires Owned(s) && Legal(s, run)
    ensures Owned(Final(s, run))
    decreases |run|
  {
    if run != [] {
      StepKeepsOwned(s, run[0]);
      RunKeepsOwned(Apply(s, run[0]), run[1..]);
    }
  }

  /**
   In every interleaving of caller and net-thread steps, each request is completed at most once, a completion has
   status Ok exactly when it carries a response, whose request id is then the request's own, and a synchronous caller
   that has returned was completed exactly once.
   */
  lemma CompletedAtMostOnce(run: seq<Event>, m: nat)
    requires Legal(INITIAL, run) && m < |Final(INITIAL, run).msgs|
    ensures var msg := Final(INITIAL, run).msgs[m];
            && msg.completions <= 1
            && (msg.completions == 1 ==> (msg.status == Ok <==> msg.resp.Some?))
            && (msg.resp.Some? ==> msg.resp.value.requestId == IdOf(m))
            && (msg.invoke == Sync && msg.pc == Returned ==> msg.completions == 1)
  {
    RunKeepsOwned(INITIAL, run);
    assert CompletedWell(Final(INITIAL, run), m);
  }

  // --------------------------------------------------------------- finality

  lemma StepIsFinal(s: State, e: Event, m: nat)
    requires Owned(s) && Enabled(s, e) && m < |s.msgs| && s.msgs[m].completions == 1
    ensures m < |Apply(s, e).msgs|
    ensures var was, now := s.msgs[m], Apply(s, e).msgs[m];
            now.completions == 1 && now.status == was.status && now.resp == was.resp
  {
    assert CompletedWell(s, m);
    assert !Waiting(s, m);
  }

  /** A completion is final: whatever happens later, outcome and response of a completed request stay as they are. */
  lemma {:induction false} CompletionIsFinal(s: State, run: seq<Event>, m: nat)
    requires Owned(s) && Legal(s, run) && m < |s.msgs| && s.msgs[m].completions == 1
    ensures m < |Final(s, run).msgs|
    ensures var was, now := s.msgs[m], Final(s, run).msgs[m];
            now.completions == 1 && now.status == was.status && now.resp == was.resp
    decreases |run|
  {
    if run != [] {
      StepIsFinal(s, run[0], m);
      StepKeepsOwned(s, run[0]);
      CompletionIsFinal(Apply(s, run[0]), run[1..], m);
    }
  }

  // -------------------------------------------------------- no request is lost

  /** The request is pending under its own id. */
  ghost predicate Pends(s: State, m: nat) {
    IdOf(m) in s.pending && s.pending[IdOf(m)] == m
  }

  /** A saved request that is not completed, and that neither the pending map nor the net thread knows. */
  ghost predicate Lost(s: State, m: nat) {
    Waiting(s, m) && m !in Held(s.net) && !Pends(s, m)
  }

  ghost predicate Accounted(s: State) {
    forall m :: 0 <= m < |s.msgs| ==> !Lost(s, m)
  }

  /** saveMessage assigns to the pending map, so a request id that has come round again replaces what is there. */
  predicate Overwrites(s: State, e: Event) {
    e.Save? && IdOf(e.m) in s.pending
  }

  ghost predicate NeverOverwrites(s: State, run: seq<Event>)
    requires Legal(s, run)
    decreases |run|
  {
    run == [] || (!Overwrites(s, run[0]) && NeverOverwrites(Apply(s, run[0]), run[1..]))
  }

  lemma WaitingBefore(s: State, e: Event, m: nat)
    requires Owned(s) && Enabled(s, e) && Waiting(Apply(s, e), m)
    ensures (e.Save? && e.m == m) || Waiting(s, m)
  {
    assert m < |s.msgs| ==> CompletedWell(s, m);
  }

  lemma NotLostBySaving(s: State, e: Event, m: nat)
    requires Enabled(s, e) && e.Save? && !Overwrites(s, e) && !Lost(s, m)
    ensures !Lost(Apply(s, e), m)
  {
  }

  lemma NotLost(s: State, e: Event, m: nat)
    requires Owned(s) && Enabled(s, e) && !Overwrites(s, e) && !Lost(s, m)
    ensures !Lost(Apply(s, e), m)
  {
    if e.Save? {
      NotLostBySaving(s, e, m);
    } else if Waiting(Apply(s, e), m) {
      WaitingBefore(s, e, m);
    }
  }

  lemma OverwriteLoses(s: State, e: Event)
    requires Owned(s) && Enabled(s, e) && Overwrites(s, e)
    ensures Lost(Apply(s, e), s.pending[IdOf(e.m)])
  {
    var was := s.pending[IdOf(e.m)];
    assert Waiting(s, was) && IdOf(was) == IdOf(e.m) && was !in Held(s.net);
  }

  lemma CallerKeepsLost(s: State, e: Event, m: nat)
    requires Enabled(s, e) && ByCaller(e) && Lost(s, m)
    ensures Lost(Apply(s, e), m)
  {
  }

  lemma NetKeepsLost(s: State, e: Event, m: nat)
    requires PendingOwned(s) && Enabled(s, e) && !ByCaller(e) && Lost(s, m)
    ensures Lost(Apply(s, e), m)
  {
    assert forall r <- s.pending :: s.pending[r] != m;
  }

  lemma StaysLost(s: State, e: Event, m: nat)
    requires PendingOwned(s) && Enabled(s, e) && Lost(s, m)
    ensures Lost(Apply(s, e), m)
  {
    if ByCaller(e) {
      CallerKeepsLost(s, e, m);
    } else {
      NetKeepsLost(s, e, m);
    }
  }

  /** A lost request stays lost: no later event completes it, so a synchronous caller waits for ever. */
  lemma {:induction false} LostForEver(s: State, run: seq<Event>, m: nat)
    requires Owned(s) && Legal(s, run) && Lost(s, m)
    ensures Lost(Final(s, run), m)
    decreases |run|
  {
    if run != [] {
      StaysLost(s, run[0], m);
      StepKeepsOwned(s, run[0]);
      LostForEver(Apply(s, run[0]), run[1..], m);
    }
  }

  /** No request is lost if and only if no request is saved under an id that is still pending. */
  lemma {:induction false} NothingLostIff(s: State, run: seq<Event>)
    requires Owned(s) && Accounted(s) && Legal(s, run)
    ensures Accounted(Final(s, run)) <==> NeverOverwrites(s, run)
    decreases |run|
  {
    if run != [] {
      var e, t := run[0], Apply(s, run[0]);
      StepKeepsOwned(s, e);
      if Overwrites(s, e) {
        OverwriteLoses(s, e);
        LostForEver(t, run[1..], s.pending[IdOf(e.m)]);
      } else {
        forall m | 0 <= m < |t.msgs| ensures !Lost(t, m) {
          NotLost(s, e, m);
        }
        NothingLostIff(t, run[1..]);
      }
    }
  }

  // ------------------------------------------- pending requests have a deadline

  predicate PastDeadline(s: State, m: nat) {
    m < |s.msgs| && (s.msgs[m].pc == Armed || s.msgs[m].pc == Returned)
  }

  /** A pending request whose deadline step has run is in the timeout list. */
  ghost predicate PendingWatched(s: State) {
    forall r <- s.pending :: PastDeadline(s, s.pending[r]) ==> r in Keys(s.timeouts)
  }

  /** The ids whose deadlines the net thread is still going to drop, for the messages it has taken. */
  function Dropping(net: Net): set<nat> {
    match net
    case Answering(_, resp) => {resp.requestId}
    case Closing(held, _) => set h <- held :: IdOf(h)
    case Forgetting(id, held, _) => {id} + set h <- held :: IdOf(h)
    case _ => {}
  }

  /**
   No id that is about to be dropped is pending. The key a sweep holds may be saved again, but it cannot be armed
   before the sweep gives the list back.
   */
  ghost predicate DroppedIdFree(s: State) {
    && (forall r <- Dropping(s.net) :: r !in s.pending)
    && (s.net.SweepHolding? ==>
          s.timeouts != [] && (s.timeouts[0].key in s.pending ==> !PastDeadline(s, s.pending[s.timeouts[0].key])))
  }

  ghost predicate Watched(s: State) {
    Owned(s) && Distinct(s.timeouts) && PendingWatched(s) && DroppedIdFree(s)
  }

  /** Saving under an id that is still pending, or whose deadline the net thread is about to drop. */
  predicate Reuses(s: State, e: Event) {
    e.Save? && (IdOf(e.m) in s.pending || IdOf(e.m) in Dropping(s.net))
  }

  ghost predicate NeverReuses(s: State, run: seq<Event>)
    requires Legal(s, run)
    decreases |run|
  {
    run == [] || (!Reuses(s, run[0]) && NeverReuses(Apply(s, run[0]), run[1..]))
  }

  /** The key a step takes out of the timeout list. */
  ghost function DroppedKey(s: State, e: Event): Option<nat>
    requires Enabled(s, e)
  {
    match e
    case ForgetAnswered => Some(s.net.resp.requestId)
    case ForgetClosed => Some(s.net.id)
    case FinishDue => Some(s.timeouts[0].key)
    case _ => None
  }

  lemma AddDeadlineAppends(s: State, m: nat)
    requires Enabled(s, AddDeadline(m))
    ensures Apply(s, AddDeadline(m)).timeouts == Append(s.timeouts, IdOf(m), s.msgs[m].pc.now + TIMEOUT)
    ensures Apply(s, AddDeadline(m)).addedAt == s.addedAt[IdOf(m) := Added(m, s.clock)]
  {
  }

  lemma AddDeadlineKeys(s: State, m: nat)
    requires Distinct(s.timeouts) && Enabled(s, AddDeadline(m))
    ensures var t := Apply(s, AddDeadline(m)); Distinct(t.timeouts) && Keys(t.timeouts) == Keys(s.timeouts) + {IdOf(m)}
  {
    var id, time := IdOf(m), s.msgs[m].pc.now + TIMEOUT;
    var l := Append(s.timeouts, id, time);
    assert Distinct(l) && Keys(l) == Keys(s.timeouts) + {id} by {
      AppendKeys(s.timeouts, id, time);
    }
    AddDeadlineAppends(s, m);
  }

  lemma DropKeys(s: State, e: Event)
    requires Distinct(s.timeouts) && Enabled(s, e) && DroppedKey(s, e).Some?
    ensures var t := Apply(s, e);
            Distinct(t.timeouts) && Keys(t.timeouts) == Keys(s.timeouts) - {DroppedKey(s, e).value}
  {
    if e.FinishDue? {
      TailKeys(s.timeouts);
    } else {
      RemoveKeys(s.timeouts, DroppedKey(s, e).value);
    }
  }

  lemma StepKeepsDistinct(s: State, e: Event)
    requires Distinct(s.timeouts) && Enabled(s, e)
    ensures Distinct(Apply(s, e).timeouts)
  {
    if e.AddDeadline? {
      AddDeadlineKeys(s, e.m);
    } else if DroppedKey(s, e).Some? {
      DropKeys(s, e);
    }
  }

  ghost predicate Pended(s: State, e: Event, r: nat, m: nat) {
    (r in s.pending && s.pending[r] == m) || e == Save(m)
  }

  lemma ArmedBefore(s: State, e: Event, m: nat)
    requires Enabled(s, e) && PastDeadline(Apply(s, e), m)
    ensures PastDeadline(s, m) || e == AddDeadline(m) || (m < |s.msgs| && !PastSave(s.msgs[m].pc) && !e.Save?)
  {
  }

  /** Where a pending request past its deadline step was before the step. */
  lemma PendingBefore(s: State, e: Event, r: nat)
    requires PendingOwned(s) && Enabled(s, e)
    requires var t := Apply(s, e); r in t.pending && PastDeadline(t, t.pending[r])
    ensures r in s.pending && s.pending[r] == Apply(s, e).pending[r]
    ensures PastDeadline(s, s.pending[r]) || (e.AddDeadline? && IdOf(e.m) == r)
  {
    var m := Apply(s, e).pending[r];
    assert Pended(s, e, r, m);
    if r in s.pending {
      assert Waiting(s, s.pending[r]) && IdOf(s.pending[r]) == r;
    }
    ArmedBefore(s, e, m);
  }

  lemma DropsUnwatchedKey(s: State, e: Event, r: nat)
    requires Owned(s) && DroppedIdFree(s) && Enabled(s, e) && DroppedKey(s, e) == Some(r)
    ensures r in s.pending ==> !PastDeadline(s, s.pending[r])
  {
  }

  lemma StepKeepsPendingWatched(s: State, e: Event)
    requires Watched(s) && Enabled(s, e)
    ensures PendingWatched(Apply(s, e))
  {
    var t := Apply(s, e);
    forall r <- t.pending | PastDeadline(t, t.pending[r]) ensures r in Keys(t.timeouts) {
      PendingBefore(s, e, r);
      if e.AddDeadline? {
        AddDeadlineKeys(s, e.m);
      } else if DroppedKey(s, e).Some? {
        DropsUnwatchedKey(s, e, DroppedKey(s, e).value);
        DropKeys(s, e);
      }
    }
  }

  lemma DroppingStaysFree(s: State, e: Event)
    requires Owned(s) && DroppedIdFree(s) && Enabled(s, e) && !Reuses(s, e)
    ensures forall r <- Dropping(Apply(s, e).net) :: r !in Apply(s, e).pending
  {
    var t := Apply(s, e);
    forall r <- Dropping(t.net) ensures r !in t.pending {
      if e.Close? && r in s.pending {
        var h :| h in t.net.held && IdOf(h) == r;
        var q :| q in s.pending && s.pending[q] == h;
        assert q == r;
      }
    }
  }

  lemma HeldKeyStaysUnarmed(s: State, e: Event)
    requires Owned(s) && DroppedIdFree(s) && Enabled(s, e) && Apply(s, e).net.SweepHolding?
    ensures var t := Apply(s, e);
            t.timeouts != [] && (t.timeouts[0].key in t.pending ==> !PastDeadline(t, t.pending[t.timeouts[0].key]))
  {
    var t := Apply(s, e);
    assert t.timeouts == s.timeouts && t.timeouts != [];
    var key := t.timeouts[0].key;
    if key in t.pending && PastDeadline(t, t.pending[key]) {
      PendingBefore(s, e, key);
      assert false;
    }
  }

  lemma StepKeepsWatched(s: State, e: Event)
    requires Watched(s) && Enabled(s, e) && !Reuses(s, e)
    ensures Watched(Apply(s, e))
  {
    StepKeepsOwned(s, e);
    StepKeepsDistinct(s, e);
    StepKeepsPendingWatched(s, e);
    DroppingStaysFree(s, e);
    if Apply(s, e).net.SweepHolding? {
      HeldKeyStaysUnarmed(s, e);
    }
  }

  lemma {:induction false} RunKeepsWatched(s: State, run: seq<Event>)
    requires Watched(s) && Legal(s, run) && NeverReuses(s, run)
    ensures Watched(Final(s, run)) && NeverOverwrites(s, run)
    decreases |run|
  {
    if run != [] {
      StepKeepsWatched(s, run[0]);
      RunKeepsWatched(Apply(s, run[0]), run[1..]);
    }
  }

  /**
   No saved request is lost: after every run that never saves a request under an id still in use, a saved two-way
   request that is not completed is pending under its own id or in the net thread's hands, and if it is pending and
   its deadline step has run, it is in the timeout list.
   */
  lemma NoRequestLost(run: seq<Event>, m: nat)
    requires Legal(INITIAL, run) && NeverReuses(INITIAL, run) && Waiting(Final(INITIAL, run), m)
    ensures var s := Final(INITIAL, run);
            && (m in Held(s.net) || Pends(s, m))
            && (Pends(s, m) && PastDeadline(s, m) ==> IdOf(m) in Keys(s.timeouts))
  {
    RunKeepsWatched(INITIAL, run);
    NothingLostIff(INITIAL, run);
    assert !Lost(Final(INITIAL, run), m);
  }

  // ------------------------------------------------ the condition on ids is exact

  ghost predicate Safe(s: State) {
    Accounted(s) && PendingWatched(s)
  }

  lemma {:induction false} NoSaveNoReuse(s: State, run: seq<Event>)
    requires Legal(s, run) && forall i :: 0 <= i < |run| ==> !run[i].Save?
    ensures NeverReuses(s, run)
    decreases |run|
  {
    if run != [] {
      NoSaveNoReuse(Apply(s, run[0]), run[1..]);
    }
  }

  /** The id is pending, its deadline step has run, and the net thread is going to drop its deadline. */
  ghost predicate Endangered(s: State, r: nat) {
    Owned(s) && Distinct(s.timeouts) && r in s.pending && PastDeadline(s, s.pending[r]) && r in Dropping(s.net)
  }

  lemma DropUnwatches(s: State, e: Event, r: nat)
    requires Distinct(s.timeouts) && Enabled(s, e) && DroppedKey(s, e) == Some(r) && !e.FinishDue?
    requires r in s.pending && PastDeadline(s, s.pending[r])
    ensures !PendingWatched(Apply(s, e))
  {
    DropKeys(s, e);
    assert r in Apply(s, e).pending && r !in Keys(Apply(s, e).timeouts);
  }

  lemma ClosingUnwatches(s: State, r: nat) returns (run: seq<Event>)
    requires Endangered(s, r) && s.net.Closing?
    ensures Legal(s, run) && !PendingWatched(Final(s, run)) && forall i :: 0 <= i < |run| ==> !run[i].Save?
  {
    var h :| h in s.net.held && IdOf(h) == r;
    assert Waiting(s, h);
    var t := Apply(s, FinishClosed(h));
    DropUnwatches(t, ForgetClosed, r);
    Then(t, ForgetClosed, []);
    Then(s, FinishClosed(h), [ForgetClosed] + []);
    run := [FinishClosed(h)] + ([ForgetClosed] + []);
  }

  lemma DroppingUnwatches(s: State, r: nat) returns (run: seq<Event>)
    requires Endangered(s, r)
    ensures Legal(s, run) && !PendingWatched(Final(s, run)) && forall i :: 0 <= i < |run| ==> !run[i].Save?
  {
    if s.net.Closing? {
      run := ClosingUnwatches(s, r);
    } else {
      var e := if s.net.Answering? then ForgetAnswered else ForgetClosed;
      if DroppedKey(s, e) == Some(r) {
        DropUnwatches(s, e, r);
        Then(s, e, []);
        run := [e] + [];
      } else {
        StepKeepsOwned(s, e);
        StepKeepsDistinct(s, e);
        var rest := ClosingUnwatches(Apply(s, e), r);
        Then(s, e, rest);
        run := [e] + rest;
      }
    }
  }

  /** The saved request goes on to arm its deadline, which the net thread then drops. */
  lemma ReuseUnwatches(s: State, m: nat) returns (run: seq<Event>)
    requires Owned(s) && Distinct(s.timeouts) && At(s, m, Saved) && Pends(s, m) && IdOf(m) in Dropping(s.net)
    ensures Legal(s, run) && !PendingWatched(Final(s, run)) && forall i :: 0 <= i < |run| ==> !run[i].Save?
  {
    var t := Apply(s, ReadClock(m));
    var u := Apply(t, AddDeadline(m));
    StepKeepsOwned(s, ReadClock(m));
    StepKeepsOwned(t, AddDeadline(m));
    StepKeepsDistinct(t, AddDeadline(m));
    var rest := DroppingUnwatches(u, IdOf(m));
    Then(t, AddDeadline(m), rest);
    Then(s, ReadClock(m), [AddDeadline(m)] + rest);
    run := [ReadClock(m)] + ([AddDeadline(m)] + rest);
  }

  lemma SafeFrom(s: State, m: nat, run: seq<Event>)
    requires Watched(s) && Accounted(s) && Enabled(s, Save(m)) && !Reuses(s, Save(m))
    requires Legal(Apply(s, Save(m)), run) && NeverReuses(Apply(s, Save(m)), run)
    ensures Safe(Final(Apply(s, Save(m)), run))
  {
    Then(s, Save(m), run);
    var whole := [Save(m)] + run;
    assert whole[1..] == run;
    RunKeepsWatched(s, whole);
    NothingLostIff(s, whole);
  }

  lemma UnsafeFrom(s: State, m: nat) returns (run: seq<Event>)
    requires Watched(s) && Enabled(s, Save(m)) && Reuses(s, Save(m))
    ensures var t := Apply(s, Save(m)); Legal(t, run) && NeverReuses(t, run) && !Safe(Final(t, run))
  {
    var t := Apply(s, Save(m));
    if IdOf(m) in s.pending {
      run := [];
      OverwriteLoses(s, Save(m));
      assert Lost(t, s.pending[IdOf(m)]);
    } else {
      StepKeepsOwned(s, Save(m));
      run := ReuseUnwatches(t, m);
      NoSaveNoReuse(t, run);
    }
  }

  /**
   Saving a request is safe, whatever run follows that is itself careful, if and only if its id is neither pending
   nor about to be dropped.
   */
  lemma SaveSafeIff(s: State, m: nat)
    requires Watched(s) && Accounted(s) && Enabled(s, Save(m))
    ensures var t := Apply(s, Save(m));
            !Reuses(s, Save(m)) <==> forall run :: Legal(t, run) && NeverReuses(t, run) ==> Safe(Final(t, run))
  {
    var t := Apply(s, Save(m));
    StepKeepsOwned(s, Save(m));
    if !Reuses(s, Save(m)) {
      forall run | Legal(t, run) && NeverReuses(t, run) ensures Safe(Final(t, run)) {
        SafeFrom(s, m, run);
      }
    } else {
      var run := UnsafeFrom(s, m);
      assert !Safe(Final(t, run));
    }
  }

  // ------------------------------------- ids come round again after 2^32 requests

  /** At most 2^32 requests so far: every request id is still the number of its message. */
  predicate FirstRound(s: State) {
    |s.msgs| <= U32
  }

  ghost predicate ForgottenSaved(s: State) {
    s.net.Forgetting? ==> s.net.id < |s.msgs| && PastSave(s.msgs[s.net.id].pc)
  }

  lemma FirstRoundNoReuse(s: State, e: Event)
    requires Owned(s) && ForgottenSaved(s) && FirstRound(s) && Enabled(s, e)
    ensures !Reuses(s, e)
  {
    if e.Save? {
      assert IdOf(e.m) == e.m && !Waiting(s, e.m);
      assert forall r <- s.pending :: s.pending[r] == r && r != e.m by {
        forall r <- s.pending ensures s.pending[r] == r && r != e.m {
          assert Waiting(s, s.pending[r]);
        }
      }
      assert forall h <- Held(s.net) :: Waiting(s, h) && IdOf(h) == h;
    }
  }

  lemma {:induction false} MessagesOnlyGrow(s: State, run: seq<Event>)
    requires Legal(s, run)
    ensures |s.msgs| <= |Final(s, run).msgs|
    decreases |run|
  {
    if run != [] {
      MessagesOnlyGrow(Apply(s, run[0]), run[1..]);
    }
  }

  lemma StepKeepsForgottenSaved(s: State, e: Event)
    requires Owned(s) && ForgottenSaved(s) && FirstRound(s) && Enabled(s, e)
    ensures ForgottenSaved(Apply(s, e))
  {
    if e.FinishClosed? {
      assert Waiting(s, e.m) && IdOf(e.m) == e.m;
    }
  }

  /** The first 2^32 requests meet the condition by themselves. */
  lemma {:induction false} FirstRoundNeverReuses(s: State, run: seq<Event>)
    requires Owned(s) && ForgottenSaved(s) && Legal(s, run) && FirstRound(Final(s, run))
    ensures NeverReuses(s, run)
    decreases |run|
  {
    if run != [] {
      MessagesOnlyGrow(s, run);
      FirstRoundNoReuse(s, run[0]);
      StepKeepsOwned(s, run[0]);
      StepKeepsForgottenSaved(s, run[0]);
      FirstRoundNeverReuses(Apply(s, run[0]), run[1..]);
    }
  }

  const BEGUN := Message(Sync, Sending, None, TimeOut, None, 0)

  ghost function AllBegun(n: nat): State {
    State(0, seq(n, _ => BEGUN), map[], [], Idle, map[], map[])
  }

  lemma {:induction false} BeginMany(n: nat) returns (run: seq<Event>)
    ensures Legal(INITIAL, run) && Final(INITIAL, run) == AllBegun(n)
    ensures forall i :: 0 <= i < |run| ==> !run[i].Save?
  {
    if n == 0 {
      run := [];
    } else {
      var before := BeginMany(n - 1);
      var s := AllBegun(n - 1);
      assert Apply(s, Begin(Sync)) == AllBegun(n);
      Then(s, Begin(Sync), []);
      Join(INITIAL, before, [Begin(Sync)] + []);
      run := before + ([Begin(Sync)] + []);
    }
  }

  /** Request 2^32 is saved over request 0, which is then lost. */
  lemma SecondRoundCanLose() returns (run: seq<Event>)
    ensures Legal(INITIAL, run) && Lost(Final(INITIAL, run), 0)
  {
    var begin := BeginMany(U32 + 1);
    var s := AllBegun(U32 + 1);
    var a := Apply(s, Send(0, 0));
    var b := Apply(a, Send(U32, 0));
    var c := Apply(b, Save(0));
    var d := Apply(c, Save(U32));
    assert IdOf(U32) == 0 && Lost(d, 0);
    Then(c, Save(U32), []);
    Then(b, Save(0), [Save(U32)] + []);
    Then(a, Send(U32, 0), [Save(0)] + ([Save(U32)] + []));
    Then(s, Send(0, 0), [Send(U32, 0)] + ([Save(0)] + ([Save(U32)] + [])));
    var rest := [Send(0, 0)] + ([Send(U32, 0)] + ([Save(0)] + ([Save(U32)] + [])));
    Join(INITIAL, begin, rest);
    run := begin + rest;
  }

  // ------------------------------------------------------- the timeout sweep

  /** Entries stand in the order in which they were added, and none expires later than its add step allows. */
  ghost predicate InAddOrder(l: seq<Entry>, addedAt: map<nat, Added>) {
    && (forall i :: 0 <= i < |l| ==> l[i].key in addedAt && l[i].time <= addedAt[l[i].key].clock + TIMEOUT)
    && (forall i, j :: 0 <= i < j < |l| ==> addedAt[l[i].key].clock <= addedAt[l[j].key].clock)
  }

  /** What the sweep has fired is due, and what it has not fired is still in the list. */
  ghost predicate SweepOnTrack(s: State) {
    SweepRuns(s.net) ==>
      && Distinct(s.net.start)
      && s.net.fired <= |s.net.start| && s.timeouts == s.net.start[s.net.fired..]
      && (forall i :: 0 <= i < s.net.fired ==> s.net.start[i].time <= s.net.now)
      && (s.net.SweepHolding? ==> s.timeouts != [] && s.timeouts[0].time <= s.net.now)
  }

  /** Clock readings lie in the past. */
  ghost predicate StampsPast(s: State) {
    && (forall k <- s.addedAt :: s.addedAt[k].clock <= s.clock)
    && (forall m :: 0 <= m < |s.msgs| && s.msgs[m].pc.Stamped? ==> s.msgs[m].pc.now <= s.clock)
  }

  ghost predicate Timely(s: State) {
    Distinct(s.timeouts) && InAddOrder(s.timeouts, s.addedAt) && SweepOnTrack(s) && StampsPast(s)
  }

  lemma RemoveKeepsAddOrder(l: seq<Entry>, addedAt: map<nat, Added>, key: Key)
    requires Distinct(l) && InAddOrder(l, addedAt)
    ensures Distinct(Remove(l, key)) && InAddOrder(Remove(l, key), addedAt)
  {
    RemoveKeys(l, key);
    if Find(l, key) < |l| {
      DropShape(l, Find(l, key), Remove(l, key));
    }
  }

  lemma AppendKeepsAddOrder(l: seq<Entry>, addedAt: map<nat, Added>, key: Key, time: nat, added: Added)
    requires Distinct(l) && InAddOrder(l, addedAt) && time <= added.clock + TIMEOUT
    requires forall k <- addedAt :: addedAt[k].clock <= added.clock
    ensures Distinct(Append(l, key, time)) && InAddOrder(Append(l, key, time), addedAt[key := added])
  {
    var r := Remove(l, key);
    assert Distinct(Append(l, key, time)) by {
      AppendKeys(l, key, time);
    }
    assert InAddOrder(r, addedAt) by {
      RemoveKeepsAddOrder(l, addedAt, key);
    }
    assert forall i :: 0 <= i < |r| ==> r[i].key != key by {
      RemoveDeadlines(l, key);
      assert !HasKey(r, key);
    }
    LastKeepsAddOrder(r, addedAt, Entry(key, time), added);
  }

  lemma LastKeepsAddOrder(l: seq<Entry>, addedAt: map<nat, Added>, last: Entry, added: Added)
    requires InAddOrder(l, addedAt) && last.time <= added.clock + TIMEOUT
    requires forall k <- addedAt :: addedAt[k].clock <= added.clock
    requires forall i :: 0 <= i < |l| ==> l[i].key != last.key
    ensures InAddOrder(l + [last], addedAt[last.key := added])
  {
  }

  lemma AddStaysOrdered(s: State, m: nat)
    requires Distinct(s.timeouts) && InAddOrder(s.timeouts, s.addedAt) && Enabled(s, AddDeadline(m))
    requires (forall k <- s.addedAt :: s.addedAt[k].clock <= s.clock) && s.msgs[m].pc.now <= s.clock
    ensures var t := Apply(s, AddDeadline(m)); Distinct(t.timeouts) && InAddOrder(t.timeouts, t.addedAt)
  {
    var time, added := s.msgs[m].pc.now + TIMEOUT, Added(m, s.clock);
    var l, addedAt := Append(s.timeouts, IdOf(m), time), s.addedAt[IdOf(m) := added];
    assert Distinct(l) && InAddOrder(l, addedAt) by {
      AppendKeepsAddOrder(s.timeouts, s.addedAt, IdOf(m), time, added);
    }
    assert Apply(s, AddDeadline(m)).timeouts == l && Apply(s, AddDeadline(m)).addedAt == addedAt by {
      AddDeadlineAppends(s, m);
    }
  }

  lemma TimeoutsStayOrdered(s: State, e: Event)
    requires Distinct(s.timeouts) && InAddOrder(s.timeouts, s.addedAt) && StampsPast(s) && Enabled(s, e)
    ensures Distinct(Apply(s, e).timeouts) && InAddOrder(Apply(s, e).timeouts, Apply(s, e).addedAt)
  {
    match e
    case AddDeadline(m) => AddStaysOrdered(s, m);
    case ForgetAnswered => RemoveKeepsAddOrder(s.timeouts, s.addedAt, s.net.resp.requestId);
    case ForgetClosed => RemoveKeepsAddOrder(s.timeouts, s.addedAt, s.net.id);
    case FinishDue => TailKeepsAddOrder(s.timeouts, s.addedAt);
    case _ => assert Apply(s, e).timeouts == s.timeouts && Apply(s, e).addedAt == s.addedAt;
  }

  lemma SweepStaysOnTrack(s: State, e: Event)
    requires Distinct(s.timeouts) && SweepOnTrack(s) && Enabled(s, e)
    ensures SweepOnTrack(Apply(s, e))
  {
    if e.FinishDue? {
      assert s.timeouts[0] == s.net.start[s.net.fired];
      assert s.net.start[s.net.fired..][1..] == s.net.start[s.net.fired + 1..];
    }
  }

  lemma TailKeepsAddOrder(l: seq<Entry>, addedAt: map<nat, Added>)
    requires Distinct(l) && InAddOrder(l, addedAt) && l != []
    ensures Distinct(l[1..]) && InAddOrder(l[1..], addedAt)
  {
  }

  lemma StepKeepsTimely(s: State, e: Event)
    requires Timely(s) && Enabled(s, e)
    ensures Timely(Apply(s, e))
  {
    TimeoutsStayOrdered(s, e);
    SweepStaysOnTrack(s, e);
  }

  lemma {:induction false} RunKeepsTimely(s: State, run: seq<Event>)
    requires Timely(s) && Legal(s, run)
    ensures Timely(Final(s, run))
    decreases |run|
  {
    if run != [] {
      StepKeepsTimely(s, run[0]);
      RunKeepsTimely(Apply(s, run[0]), run[1..]);
    }
  }

  /**
   A sweep that ends has fired exactly the leading entries that were due when it began: nothing is added or dropped
   under it by other threads.
   */
  lemma SweepFiresDuePrefix(run: seq<Event>)
    requires Legal(INITIAL, run) && Enabled(Final(INITIAL, run), EndSweep)
    ensures var s := Final(INITIAL, run); s.timeouts == Swept(s.net.start, s.net.now)
  {
    RunKeepsTimely(INITIAL, run);
    var s := Final(INITIAL, run);
    assert s.timeouts != [] ==> s.timeouts[0] == s.net.start[s.net.fired];
    assert IsBreak(s.net.start, s.net.now, s.net.fired);
    assert DueCount(s.net.start, s.net.now) == s.net.fired;
  }

  /**
   Overdue requests do not survive a sweep: when a sweep that read the clock as `now` ends, every id that is still
   pending for a request past its deadline step entered the timeout list less than TIMEOUT before `now`.
   */
  lemma SweepCompletesOverdue(run: seq<Event>, r: nat)
    requires Legal(INITIAL, run) && NeverReuses(INITIAL, run) && Enabled(Final(INITIAL, run), EndSweep)
    requires var s := Final(INITIAL, run); r in s.pending && PastDeadline(s, s.pending[r])
    ensures var s := Final(INITIAL, run); r in s.addedAt && s.addedAt[r].clock + TIMEOUT > s.net.now
  {
    var s := Final(INITIAL, run);
    assert r in Keys(s.timeouts) by {
      RunKeepsWatched(INITIAL, run);
    }
    assert InAddOrder(s.timeouts, s.addedAt) by {
      RunKeepsTimely(INITIAL, run);
    }
    var i :| 0 <= i < |s.timeouts| && s.timeouts[i].key == r;
    assert s.addedAt[s.timeouts[0].key].clock <= s.addedAt[r].clock;
  }

  /** Where the request at position `at` of the list is during a sweep: pending, in its turn taken, then completed. */
  ghost predicate InItsTurn(s: State, m: nat, at: nat) {
    && SweepRuns(s.net) && at < |s.net.start| && s.net.start[at].key == IdOf(m) && m < |s.msgs|
    && if s.net.fired > at then
         s.msgs[m].completions == 1 && s.msgs[m].status == TimeOut && s.msgs[m].resp.None?
       else if s.net.fired == at && s.net.SweepHolding? then s.net.taken == Some(m)
       else Pends(s, m)
  }

  /** Another request is saved over this one. */
  ghost predicate Displaces(s: State, e: Event, m: nat) {
    e.Save? && IdOf(e.m) == IdOf(m) && Pends(s, m)
  }

  ghost predicate Displaced(s: State, run: seq<Event>, m: nat)
    requires Legal(s, run)
    decreases |run|
  {
    run != [] && (Displaces(s, run[0], m) || Displaced(Apply(s, run[0]), run[1..], m))
  }

  lemma {:induction false} DisplacedIsLost(s: State, run: seq<Event>, m: nat)
    requires Owned(s) && Legal(s, run) && Displaced(s, run, m)
    ensures Lost(Final(s, run), m)
    decreases |run|
  {
    var t := Apply(s, run[0]);
    StepKeepsOwned(s, run[0]);
    if Displaces(s, run[0], m) {
      OverwriteLoses(s, run[0]);
      LostForEver(t, run[1..], m);
    } else {
      DisplacedIsLost(t, run[1..], m);
    }
  }

  lemma CallerKeepsTurn(s: State, e: Event, m: nat, at: nat)
    requires Owned(s) && Enabled(s, e) && ByCaller(e) && !Displaces(s, e, m) && InItsTurn(s, m, at)
    ensures InItsTurn(Apply(s, e), m, at)
  {
    if s.net.fired > at {
      StepIsFinal(s, e, m);
    }
  }

  lemma SweepKeepsTurn(s: State, e: Event, m: nat, at: nat)
    requires Owned(s) && SweepOnTrack(s) && Enabled(s, e) && (e.TakeDue? || e.FinishDue?) && InItsTurn(s, m, at)
    ensures InItsTurn(Apply(s, e), m, at)
  {
    assert s.timeouts[0] == s.net.start[s.net.fired];
    if s.net.fired > at {
      StepIsFinal(s, e, m);
    } else if s.net.fired == at && s.net.SweepHolding? {
      assert m in Held(s.net) && Waiting(s, m);
    }
  }

  lemma {:induction false} RunKeepsTurn(s: State, run: seq<Event>, m: nat, at: nat)
    requires Owned(s) && Timely(s) && InItsTurn(s, m, at)
    requires Legal(s, run) && !Displaced(s, run, m) && forall i :: 0 <= i < |run| ==> !run[i].EndSweep?
    ensures var t := Final(s, run); Owned(t) && Timely(t) && InItsTurn(t, m, at)
    ensures var t := Final(s, run); t.net.start == s.net.start && t.net.now == s.net.now
    decreases |run|
  {
    if run != [] {
      var e := run[0];
      if ByCaller(e) {
        CallerKeepsTurn(s, e, m, at);
      } else {
        SweepKeepsTurn(s, e, m, at);
      }
      StepKeepsOwned(s, e);
      StepKeepsTimely(s, e);
      RunKeepsTurn(Apply(s, e), run[1..], m, at);
    }
  }

  /** A sweep is about to begin and the request is pending, with its id at position `at` of the timeout list. */
  ghost predicate SweepAhead(s: State, now: nat, m: nat, at: nat) {
    Enabled(s, BeginSweep(now)) && at < |s.timeouts| && s.timeouts[at].key == IdOf(m) && Pends(s, m)
  }

  /** The steps of a sweep and of the callers meanwhile, up to the end of the sweep. */
  ghost predicate FullSweep(s: State, now: nat, sweep: seq<Event>)
    requires Enabled(s, BeginSweep(now))
  {
    var begun := Apply(s, BeginSweep(now));
    && Legal(begun, sweep)
    && (forall i :: 0 <= i < |sweep| ==> !sweep[i].EndSweep?)
    && Enabled(Final(begun, sweep), EndSweep)
  }

  lemma TurnAtEnd(t: State, m: nat, at: nat)
    requires Owned(t) && SweepOnTrack(t) && InItsTurn(t, m, at) && Enabled(t, EndSweep)
    ensures t.msgs[m].completions == 0 <==> exists i :: 0 <= i <= at && t.net.start[i].time > t.net.now
    ensures t.msgs[m].completions == 0 || (t.msgs[m].status == TimeOut && t.msgs[m].resp.None?)
  {
    if t.net.fired <= at {
      assert t.timeouts[0] == t.net.start[t.net.fired];
      assert Waiting(t, m);
    }
  }

  lemma SweepOutlivedIff(s: State, now: nat, sweep: seq<Event>, m: nat, at: nat)
    requires Owned(s) && Timely(s) && SweepAhead(s, now, m, at) && FullSweep(s, now, sweep)
    ensures var begun := Apply(s, BeginSweep(now));
            var t := Final(begun, sweep);
            && m < |t.msgs|
            && (t.msgs[m].completions == 0
                <==> Displaced(begun, sweep, m) || exists i :: 0 <= i <= at && s.timeouts[i].time > now)
            && (t.msgs[m].completions == 0 || (t.msgs[m].status == TimeOut && t.msgs[m].resp.None?))
  {
    var begun := Apply(s, BeginSweep(now));
    assert Waiting(s, m);
    StepKeepsOwned(s, BeginSweep(now));
    StepKeepsTimely(s, BeginSweep(now));
    if Displaced(begun, sweep, m) {
      DisplacedIsLost(begun, sweep, m);
    } else {
      RunKeepsTurn(begun, sweep, m, at);
      TurnAtEnd(Final(begun, sweep), m, at);
    }
  }

  /**
   Exactly when a pending request outlives a sweep, whatever other threads do meanwhile: when its entry or one ahead
   of it is not due, or another request is saved over it. Being due itself is not enough, because callers read the
   clock before they take the list's lock.
   */
  lemma OutlivesSweepIff(run: seq<Event>, now: nat, sweep: seq<Event>, m: nat, at: nat)
    requires Legal(INITIAL, run) && SweepAhead(Final(INITIAL, run), now, m, at)
    requires FullSweep(Final(INITIAL, run), now, sweep)
    ensures var s := Final(INITIAL, run);
            var begun := Apply(s, BeginSweep(now));
            var t := Final(begun, sweep);
            && m < |t.msgs|
            && (t.msgs[m].completions == 0
                <==> Displaced(begun, sweep, m) || exists i :: 0 <= i <= at && s.timeouts[i].time > now)
            && (t.msgs[m].completions == 0 || (t.msgs[m].status == TimeOut && t.msgs[m].resp.None?))
  {
    RunKeepsOwned(INITIAL, run);
    RunKeepsTimely(INITIAL, run);
    SweepOutlivedIff(Final(INITIAL, run), now, sweep, m, at);
  }

  lemma AppendNew(l: seq<Entry>, key: Key, time: nat)
    requires forall i :: 0 <= i < |l| ==> l[i].key != key
    ensures Append(l, key, time) == l + [Entry(key, time)]
  {
  }

  lemma SendTwo(goal: State) returns (run: seq<Event>)
    requires var sent := Message(Async, Sent, Some(0), TimeOut, None, 0);
             goal == State(0, [sent, sent], map[], [], Idle, map[], map[])
    ensures Legal(INITIAL, run) && Final(INITIAL, run) == goal
  {
    var a := Apply(INITIAL, Begin(Async));
    var b := Apply(a, Begin(Async));
    var c := Apply(b, Send(0, 0));
    Then(c, Send(1, 0), []);
    Then(b, Send(0, 0), [Send(1, 0)] + []);
    Then(a, Begin(Async), [Send(0, 0)] + ([Send(1, 0)] + []));
    Then(INITIAL, Begin(Async), [Begin(Async)] + ([Send(0, 0)] + ([Send(1, 0)] + [])));
    run := [Begin(Async)] + ([Begin(Async)] + ([Send(0, 0)] + ([Send(1, 0)] + [])));
    assert Apply(c, Send(1, 0)).msgs == goal.msgs;
  }

  lemma SaveTwo(s: State, goal: State) returns (run: seq<Event>)
    requires var sent := Message(Async, Sent, Some(0), TimeOut, None, 0);
             && s == State(0, [sent, sent], map[], [], Idle, map[], map[])
             && goal == State(0, [sent.(pc := Saved), sent.(pc := Saved)], map[0 := 0, 1 := 1], [], Idle, map[], map[])
    ensures Legal(s, run) && Final(s, run) == goal
  {
    var a := Apply(s, Save(0));
    Then(a, Save(1), []);
    Then(s, Save(0), [Save(1)] + []);
    run := [Save(0)] + ([Save(1)] + []);
    assert Apply(a, Save(1)).msgs == goal.msgs;
    assert Apply(a, Save(1)).pending == goal.pending;
  }

  lemma StampTwo(s: State, goal: State) returns (run: seq<Event>)
    requires var sent := Message(Async, Sent, Some(0), TimeOut, None, 0);
             && s == State(0, [sent.(pc := Saved), sent.(pc := Saved)], map[0 := 0, 1 := 1], [], Idle, map[], map[])
             && goal == State(5, [sent.(pc := Stamped(0)), sent.(pc := Stamped(5))], map[0 := 0, 1 := 1], [], Idle,
                              map[0 := 0, 1 := 5], map[])
    ensures Legal(s, run) && Final(s, run) == goal
  {
    var a := Apply(s, ReadClock(0));
    var b := Apply(a, Tick(5));
    Then(b, ReadClock(1), []);
    Then(a, Tick(5), [ReadClock(1)] + []);
    Then(s, ReadClock(0), [Tick(5)] + ([ReadClock(1)] + []));
    run := [ReadClock(0)] + ([Tick(5)] + ([ReadClock(1)] + []));
    assert Apply(b, ReadClock(1)).msgs == goal.msgs;
  }

  lemma ArmTwo(s: State, goal: State) returns (run: seq<Event>)
    requires var sent := Message(Async, Sent, Some(0), TimeOut, None, 0);
             && s == State(5, [sent.(pc := Stamped(0)), sent.(pc := Stamped(5))], map[0 := 0, 1 := 1], [], Idle,
                           map[0 := 0, 1 := 5], map[])
             && goal == State(5, [sent.(pc := Armed), sent.(pc := Armed)], map[0 := 0, 1 := 1],
                              [Entry(1, 3005), Entry(0, 3000)], Idle, map[0 := 0, 1 := 5],
                              map[1 := Added(1, 5), 0 := Added(0, 5)])
    ensures Legal(s, run) && Final(s, run) == goal
  {
    AppendNew([], 1, 3005);
    AppendNew([Entry(1, 3005)], 0, 3000);
    var a := Apply(s, AddDeadline(1));
    Then(a, AddDeadline(0), []);
    Then(s, AddDeadline(1), [AddDeadline(0)] + []);
    run := [AddDeadline(1)] + ([AddDeadline(0)] + []);
    assert a.timeouts == [Entry(1, 3005)];
    assert Apply(a, AddDeadline(0)).msgs == goal.msgs;
  }

  lemma SweepLate(s: State) returns (run: seq<Event>)
    requires s.net == Idle && s.clock == 5 && s.timeouts == [Entry(1, 3005), Entry(0, 3000)]
    ensures Legal(s, run) && Final(s, run) == s.(clock := 3002, net := Sweeping(3002, s.timeouts, 0))
  {
    var t := Apply(s, Tick(2997));
    Then(t, BeginSweep(3002), []);
    Then(s, Tick(2997), [BeginSweep(3002)] + []);
    run := [Tick(2997)] + ([BeginSweep(3002)] + []);
  }

  /**
   The deadline a caller computed is not a bound: two callers read the clock in one order and enter the list in the
   other, and the first request is still pending at the end of a sweep after its own deadline.
   */
  lemma DueRequestCanOutliveSweep() returns (run: seq<Event>)
    ensures Legal(INITIAL, run) && Enabled(Final(INITIAL, run), EndSweep) && |Final(INITIAL, run).msgs| == 2
    ensures var s := Final(INITIAL, run);
            && Pends(s, 0) && s.msgs[0].completions == 0
            && s.net.start == [Entry(1, 5 + TIMEOUT), Entry(0, TIMEOUT)] && s.net.now == 2 + TIMEOUT
  {
    var sent := Message(Async, Sent, Some(0), TimeOut, None, 0);
    var s0 := State(0, [sent, sent], map[], [], Idle, map[], map[]);
    var saved := State(0, [sent.(pc := Saved), sent.(pc := Saved)], map[0 := 0, 1 := 1], [], Idle, map[], map[]);
    var s1 := State(5, [sent.(pc := Stamped(0)), sent.(pc := Stamped(5))], map[0 := 0, 1 := 1], [], Idle,
                    map[0 := 0, 1 := 5], map[]);
    var s2 := State(5, [sent.(pc := Armed), sent.(pc := Armed)], map[0 := 0, 1 := 1],
                    [Entry(1, 3005), Entry(0, 3000)], Idle, map[0 := 0, 1 := 5],
                    map[1 := Added(1, 5), 0 := Added(0, 5)]);
    var begin := SendTwo(s0);
    var save := SaveTwo(s0, saved);
    var stamp := StampTwo(saved, s1);
    var arm := ArmTwo(s1, s2);
    var sweep := SweepLate(s2);
    Join(s1, arm, sweep);
    Join(saved, stamp, arm + sweep);
    Join(s0, save, stamp + (arm + sweep));
    Join(INITIAL, begin, save + (stamp + (arm + sweep)));
    run := begin + (save + (stamp + (arm + sweep)));
  }
}
