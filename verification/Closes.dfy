/**
 What the close of a connection does to the requests on it (storm_service_proxy.cpp:106-141 under source/framework):
 whom it completes, with which status, and whom it leaves alone, whatever callers do meanwhile.
 */
module Closes {
  import opened Bytes
  import opened TimeLists
  import opened RpcLifecycle

  /** The request is pending on this endpoint. */
  ghost predicate PendsOn(s: State, m: nat, ep: nat) {
    Pends(s, m) && m < |s.msgs| && s.msgs[m].ep == Some(ep)
  }

  /** The close takes exactly the requests pending on its endpoint out of the pending map. */
  lemma CloseTakes(s: State, ep: nat, closeType: CloseType, m: nat)
    requires Owned(s) && Enabled(s, Close(ep, closeType)) && m < |s.msgs|
    ensures var t := Apply(s, Close(ep, closeType));
            && (m in Held(t.net) <==> PendsOn(s, m, ep))
            && (Pends(t, m) <==> Pends(s, m) && s.msgs[m].ep != Some(ep))
  {
    assert forall r <- s.pending :: IdOf(s.pending[r]) == r && s.pending[r] < |s.msgs| by {
      forall r <- s.pending ensures IdOf(s.pending[r]) == r && s.pending[r] < |s.msgs| {
        assert Waiting(s, s.pending[r]);
      }
    }
  }

  /** The steps of onClose and, between them, any steps of callers. */
  predicate WhileClosing(e: Event) {
    ByCaller(e) || e.FinishClosed? || e.ForgetClosed?
  }

  /** From the close until the net thread is done with it. */
  ghost predicate FullClose(s: State, run: seq<Event>) {
    Legal(s, run) && Enabled(Final(s, run), EndClose) && forall i :: 0 <= i < |run| ==> WhileClosing(run[i])
  }

  predicate ClosesWith(net: Net, status: Status) {
    (net.Closing? || net.Forgetting?) && net.status == status
  }

  /** Completed without a reply. */
  predicate Failed(s: State, m: nat, status: Status) {
    m < |s.msgs| && s.msgs[m].completions == 1 && s.msgs[m].status == status && s.msgs[m].resp.None?
  }

  /** In the hands of the net thread, or completed by it. */
  ghost predicate Condemned(s: State, m: nat, status: Status) {
    ClosesWith(s.net, status) && (m in Held(s.net) || Failed(s, m, status))
  }

  lemma StepKeepsCondemned(s: State, e: Event, m: nat, status: Status)
    requires Owned(s) && Enabled(s, e) && WhileClosing(e) && Condemned(s, m, status)
    ensures Condemned(Apply(s, e), m, status)
  {
    if Failed(s, m, status) {
      StepIsFinal(s, e, m);
    } else {
      assert m in Held(s.net) && Waiting(s, m);
    }
  }

  lemma {:induction false} RunKeepsCondemned(s: State, run: seq<Event>, m: nat, status: Status)
    requires Owned(s) && FullClose(s, run) && Condemned(s, m, status)
    ensures Failed(Final(s, run), m, status)
    decreases |run|
  {
    if run != [] {
      StepKeepsCondemned(s, run[0], m, status);
      StepKeepsOwned(s, run[0]);
      RunKeepsCondemned(Apply(s, run[0]), run[1..], m, status);
    }
  }

  /** A saved request the close is not about. */
  ghost predicate Spared(s: State, m: nat) {
    (s.net.Closing? || s.net.Forgetting?) && Waiting(s, m) && m !in Held(s.net)
  }

  lemma StepSpares(s: State, e: Event, m: nat)
    requires Enabled(s, e) && WhileClosing(e) && Spared(s, m)
    ensures Spared(Apply(s, e), m)
    ensures Pends(s, m) ==> Pends(Apply(s, e), m) || Displaces(s, e, m)
  {
  }

  lemma {:induction false} RunSpares(s: State, run: seq<Event>, m: nat)
    requires FullClose(s, run) && Spared(s, m)
    ensures Waiting(Final(s, run), m)
    ensures Pends(s, m) ==> Pends(Final(s, run), m) || Displaced(s, run, m)
    decreases |run|
  {
    if run != [] {
      StepSpares(s, run[0], m);
      RunSpares(Apply(s, run[0]), run[1..], m);
    }
  }

  lemma CloseRun(s: State, ep: nat, closeType: CloseType, run: seq<Event>, m: nat)
    requires Owned(s) && Enabled(s, Close(ep, closeType)) && Waiting(s, m)
    requires FullClose(Apply(s, Close(ep, closeType)), run)
    ensures var begun := Apply(s, Close(ep, closeType));
            var t := Final(begun, run);
            && (PendsOn(s, m, ep) ==> Failed(t, m, CloseStatus(closeType)))
            && (!PendsOn(s, m, ep) ==>
                  Waiting(t, m) && (Pends(s, m) ==> Pends(t, m) || Displaced(begun, run, m)))
  {
    var begun := Apply(s, Close(ep, closeType));
    CloseTakes(s, ep, closeType, m);
    StepKeepsOwned(s, Close(ep, closeType));
    if PendsOn(s, m, ep) {
      RunKeepsCondemned(begun, run, m, CloseStatus(closeType));
    } else {
      RunSpares(begun, run, m);
    }
  }

  /**
   What a close does, in every interleaving with callers: exactly the requests that were pending on its endpoint are
   completed, without a reply and with the status the source gives to this kind of close. Every other saved request
   goes on waiting, and stays pending if it was, unless another request is saved over it.
   */
  lemma CloseCompletesIff(before: seq<Event>, ep: nat, closeType: CloseType, run: seq<Event>, m: nat)
    requires Legal(INITIAL, before) && Enabled(Final(INITIAL, before), Close(ep, closeType))
    requires Waiting(Final(INITIAL, before), m)
    requires FullClose(Apply(Final(INITIAL, before), Close(ep, closeType)), run)
    ensures var s := Final(INITIAL, before);
            var begun := Apply(s, Close(ep, closeType));
            var t := Final(begun, run);
            && m < |t.msgs|
            && (t.msgs[m].completions == 1 <==> PendsOn(s, m, ep))
            && (PendsOn(s, m, ep) ==>
                  && t.msgs[m].resp.None?
                  && (t.msgs[m].status == TimeOut <==> closeType == Timeout)
                  && (t.msgs[m].status == NetError <==> closeType == ConnectFail || closeType == ConnTimeOut)
                  && t.msgs[m].status != Ok)
            && (!PendsOn(s, m, ep) ==>
                  Waiting(t, m) && (Pends(s, m) ==> Pends(t, m) || Displaced(begun, run, m)))
  {
    RunKeepsOwned(INITIAL, before);
    var s := Final(INITIAL, before);
    CloseRun(s, ep, closeType, run, m);
  }
}
