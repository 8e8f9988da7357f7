/**
 Replies and the saving of requests. The caller sends a request before it saves it (storm_service_proxy.cpp:320 and
 :326 under source/framework), so a reply can find nothing pending. This module says which replies arrive.
 */
module Replies {
  import opened Bytes
  import opened TimeLists
  import opened RpcLifecycle

  /** The request was completed with this reply. */
  predicate AnsweredWith(s: State, m: nat, resp: Response) {
    m < |s.msgs| && s.msgs[m].completions == 1 && s.msgs[m].status == Ok && s.msgs[m].resp == Some(resp)
  }

  /** The steps of onPacket and, between them, any steps of callers. */
  predicate WhileHandling(e: Event) {
    ByCaller(e) || e.ForgetAnswered? || e.FinishAnswered?
  }

  /** From the arrival of a reply until the net thread is done with it. */
  ghost predicate Handles(s: State, run: seq<Event>) {
    Legal(s, run) && Final(s, run).net == Idle && forall i :: 0 <= i < |run| ==> WhileHandling(run[i])
  }

  ghost predicate InHand(s: State, m: nat, resp: Response) {
    (s.net.Answering? || s.net.Answered?) && s.net.m == m && s.net.resp == resp
  }

  lemma StepDelivers(s: State, e: Event, m: nat, resp: Response)
    requires Owned(s) && Enabled(s, e) && WhileHandling(e) && (InHand(s, m, resp) || AnsweredWith(s, m, resp))
    ensures InHand(Apply(s, e), m, resp) || AnsweredWith(Apply(s, e), m, resp)
  {
    if AnsweredWith(s, m, resp) {
      StepIsFinal(s, e, m);
    } else {
      assert m in Held(s.net) && Waiting(s, m);
    }
  }

  lemma {:induction false} RunDelivers(s: State, run: seq<Event>, m: nat, resp: Response)
    requires Owned(s) && Handles(s, run) && (InHand(s, m, resp) || AnsweredWith(s, m, resp))
    ensures AnsweredWith(Final(s, run), m, resp)
    decreases |run|
  {
    if run != [] {
      StepDelivers(s, run[0], m, resp);
      StepKeepsOwned(s, run[0]);
      RunDelivers(Apply(s, run[0]), run[1..], m, resp);
    }
  }

  /** The reply at hand is for somebody else, and the request has none. */
  ghost predicate Passed(s: State, m: nat) {
    && m < |s.msgs| && s.msgs[m].resp.None? && m !in Held(s.net)
    && (s.net == Idle || s.net.Answering? || s.net.Answered?)
  }

  lemma StepPasses(s: State, e: Event, m: nat)
    requires Passed(s, m) && Enabled(s, e) && WhileHandling(e)
    ensures Passed(Apply(s, e), m)
  {
  }

  lemma {:induction false} RunPasses(s: State, run: seq<Event>, m: nat)
    requires Passed(s, m) && Handles(s, run)
    ensures Passed(Final(s, run), m)
    decreases |run|
  {
    if run != [] {
      StepPasses(s, run[0], m);
      RunPasses(Apply(s, run[0]), run[1..], m);
    }
  }

  /**
   Which replies arrive: whatever callers do while it is handled, a reply under the id of a request that has none yet
   completes this request if and only if the request is pending when the reply comes in.
   */
  lemma ReplyArrivesIff(before: seq<Event>, m: nat, resp: Response, run: seq<Event>)
    requires Legal(INITIAL, before) && m < |Final(INITIAL, before).msgs|
    requires Final(INITIAL, before).msgs[m].completions == 0 && resp.requestId == IdOf(m)
    requires Enabled(Final(INITIAL, before), Packet(resp))
    requires Handles(Apply(Final(INITIAL, before), Packet(resp)), run)
    ensures var s := Final(INITIAL, before);
            AnsweredWith(Final(Apply(s, Packet(resp)), run), m, resp) <==> Pends(s, m)
  {
    RunKeepsOwned(INITIAL, before);
    var s := Final(INITIAL, before);
    var t := Apply(s, Packet(resp));
    assert CompletedWell(s, m);
    StepKeepsOwned(s, Packet(resp));
    if Pends(s, m) {
      RunDelivers(t, run, m, resp);
    } else {
      RunPasses(t, run, m);
    }
  }

  // -------------------------------------------------------------- a dropped reply

  /** A single two-way request, answered before it was saved. */
  lemma SentAndAnswered(resp: Response) returns (run: seq<Event>)
    requires resp.requestId == 0
    ensures run == [Begin(Sync), Send(0, 0), Packet(resp), Save(0)] && Legal(INITIAL, run)
    ensures Final(INITIAL, run)
            == State(0, [BEGUN.(pc := Saved, ep := Some(0))], map[0 := 0], [], Idle, map[], map[])
  {
    var a := Apply(INITIAL, Begin(Sync));
    var b := Apply(a, Send(0, 0));
    var c := Apply(b, Packet(resp));
    Then(c, Save(0), []);
    Then(b, Packet(resp), [Save(0)] + []);
    Then(a, Send(0, 0), [Packet(resp)] + ([Save(0)] + []));
    Then(INITIAL, Begin(Sync), [Send(0, 0)] + ([Packet(resp)] + ([Save(0)] + [])));
    run := [Begin(Sync)] + ([Send(0, 0)] + ([Packet(resp)] + ([Save(0)] + [])));
    assert Apply(c, Save(0)).msgs == [BEGUN.(pc := Saved, ep := Some(0))];
  }

  lemma ThenArmed(s: State) returns (run: seq<Event>)
    requires s == State(0, [BEGUN.(pc := Saved, ep := Some(0))], map[0 := 0], [], Idle, map[], map[])
    ensures Legal(s, run)
    ensures var t := Final(s, run);
            && t.clock == TIMEOUT && t.msgs == [BEGUN.(pc := Armed, ep := Some(0))] && t.pending == map[0 := 0]
            && t.timeouts == [Entry(0, TIMEOUT)] && t.net == Idle
  {
    var a := Apply(s, ReadClock(0));
    var b := Apply(a, AddDeadline(0));
    AppendNew([], 0, TIMEOUT);
    Then(b, Tick(TIMEOUT), []);
    Then(a, AddDeadline(0), [Tick(TIMEOUT)] + []);
    Then(s, ReadClock(0), [AddDeadline(0)] + ([Tick(TIMEOUT)] + []));
    run := [ReadClock(0)] + ([AddDeadline(0)] + ([Tick(TIMEOUT)] + []));
    assert Apply(b, Tick(TIMEOUT)).msgs == [BEGUN.(pc := Armed, ep := Some(0))];
  }

  lemma ThenTimedOut(s: State) returns (run: seq<Event>)
    requires s.clock == TIMEOUT && s.msgs == [BEGUN.(pc := Armed, ep := Some(0))] && s.pending == map[0 := 0]
    requires s.timeouts == [Entry(0, TIMEOUT)] && s.net == Idle
    ensures Legal(s, run)
    ensures var t := Final(s, run); |t.msgs| == 1 && t.msgs[0].completions == 1 && t.msgs[0].status == TimeOut
  {
    var a := Apply(s, BeginSweep(TIMEOUT));
    var b := Apply(a, TakeDue);
    Then(b, FinishDue, []);
    Then(a, TakeDue, [FinishDue] + []);
    Then(s, BeginSweep(TIMEOUT), [TakeDue] + ([FinishDue] + []));
    run := [BeginSweep(TIMEOUT)] + ([TakeDue] + ([FinishDue] + []));
  }

  /** A request whose reply comes in between sending and saving is answered, and yet times out. */
  lemma AnsweredRequestCanTimeOut(resp: Response) returns (run: seq<Event>)
    requires resp.requestId == 0
    ensures Legal(INITIAL, run) && |run| >= 4 && run[..4] == [Begin(Sync), Send(0, 0), Packet(resp), Save(0)]
    ensures var s := Final(INITIAL, run); |s.msgs| == 1 && s.msgs[0].completions == 1 && s.msgs[0].status == TimeOut
  {
    var sent := SentAndAnswered(resp);
    var s := Final(INITIAL, sent);
    var armed := ThenArmed(s);
    var swept := ThenTimedOut(Final(s, armed));
    Join(s, armed, swept);
    Join(INITIAL, sent, armed + swept);
    run := sent + (armed + swept);
  }

  // ------------------------------------------------------- requests without endpoint

  /** A caller that found no endpoint is done: its request was never sent and failed with NetError. */
  ghost predicate UnsentFailed(s: State) {
    forall m :: 0 <= m < |s.msgs| && s.msgs[m].ep.None? ==>
      && (s.msgs[m].pc == Sending || s.msgs[m].pc == Returned)
      && (s.msgs[m].pc == Returned ==> s.msgs[m].status == NetError && s.msgs[m].resp.None?)
      && (s.msgs[m].pc == Returned && s.msgs[m].invoke != OneWay ==> s.msgs[m].completions == 1)
  }

  lemma StepKeepsUnsentFailed(s: State, e: Event)
    requires Owned(s) && UnsentFailed(s) && Enabled(s, e)
    ensures UnsentFailed(Apply(s, e))
  {
    var t := Apply(s, e);
    forall m | 0 <= m < |t.msgs| && t.msgs[m].ep.None?
      ensures t.msgs[m].pc == Sending || t.msgs[m].pc == Returned
      ensures t.msgs[m].pc == Returned ==> t.msgs[m].status == NetError && t.msgs[m].resp.None?
      ensures t.msgs[m].pc == Returned && t.msgs[m].invoke != OneWay ==> t.msgs[m].completions == 1
    {
      if m < |s.msgs| {
        assert CompletedWell(s, m);
        assert m in Held(s.net) ==> Waiting(s, m);
      }
    }
  }

  lemma {:induction false} RunKeepsUnsentFailed(s: State, run: seq<Event>)
    requires Owned(s) && UnsentFailed(s) && Legal(s, run)
    ensures UnsentFailed(Final(s, run))
    decreases |run|
  {
    if run != [] {
      StepKeepsUnsentFailed(s, run[0]);
      StepKeepsOwned(s, run[0]);
      RunKeepsUnsentFailed(Apply(s, run[0]), run[1..]);
    }
  }

  /** In every reachable state, a two-way request whose caller found no endpoint has been completed with NetError. */
  lemma NoEndpointIsNetError(run: seq<Event>, m: nat)
    requires Legal(INITIAL, run) && m < |Final(INITIAL, run).msgs|
    requires var msg := Final(INITIAL, run).msgs[m]; msg.ep.None? && msg.pc == Returned && msg.invoke != OneWay
    ensures var msg := Final(INITIAL, run).msgs[m]; msg.completions == 1 && msg.status == NetError && msg.resp.None?
  {
    RunKeepsUnsentFailed(INITIAL, run);
  }
}
