/**
 Deadlines that outlive their request. A caller enters its deadline into the timeout list after the request is saved,
 so a reply that comes in between leaves a stale entry behind (source/framework/storm_service_proxy.cpp:324-328). This
 module says when such an entry, or one that is still to come, can time out a later request under the same id.
 */
module StaleDeadlines {
  import opened Bytes
  import opened TimeLists
  import opened RpcLifecycle

  /** A sweep completes `m` before TIMEOUT has passed since its caller read the clock. */
  predicate TimesOutEarly(s: State, e: Event, m: nat) {
    && e.FinishDue? && s.net.SweepHolding? && s.net.taken == Some(m)
    && (m in s.readAt ==> s.net.now < s.readAt[m] + TIMEOUT)
  }

  ghost predicate EverEarly(s: State, run: seq<Event>, m: nat)
    requires Legal(s, run)
    decreases |run|
  {
    run != [] && (TimesOutEarly(s, run[0], m) || EverEarly(Apply(s, run[0]), run[1..], m))
  }

  // ------------------------------------------------------------ clock readings

  /** Only callers past their clock reading have one, and a caller holds the value it read. */
  ghost predicate ReadingsFit(s: State) {
    && (forall k <- s.readAt :: k < |s.msgs| && (s.msgs[k].pc.Stamped? || PastDeadline(s, k)))
    && (forall k :: 0 <= k < |s.msgs| && s.msgs[k].pc.Stamped? ==> k in s.readAt && s.readAt[k] == s.msgs[k].pc.now)
  }

  lemma CallerKeepsReadings(s: State, e: Event)
    requires ReadingsFit(s) && Enabled(s, e) && ByCaller(e)
    ensures ReadingsFit(Apply(s, e))
  {
  }

  ghost predicate SamePcs(s: State, t: State) {
    |t.msgs| == |s.msgs| && forall k :: 0 <= k < |s.msgs| ==> t.msgs[k].pc == s.msgs[k].pc
  }

  lemma NetKeepsPcs(s: State, e: Event)
    requires Enabled(s, e) && !ByCaller(e)
    ensures SamePcs(s, Apply(s, e)) && Apply(s, e).readAt == s.readAt
  {
  }

  lemma StepKeepsReadings(s: State, e: Event)
    requires ReadingsFit(s) && Enabled(s, e)
    ensures ReadingsFit(Apply(s, e))
  {
    if ByCaller(e) {
      CallerKeepsReadings(s, e);
    } else {
      NetKeepsPcs(s, e);
    }
  }

  lemma ReadingStays(s: State, e: Event, m: nat)
    requires ReadingsFit(s) && Enabled(s, e) && m in s.readAt
    ensures m in Apply(s, e).readAt && Apply(s, e).readAt[m] == s.readAt[m]
  {
    if !ByCaller(e) {
      NetKeepsPcs(s, e);
    }
  }

  /** What every reachable state has. */
  ghost predicate Sound(s: State) {
    Owned(s) && Distinct(s.timeouts) && ReadingsFit(s) && (s.net.SweepHolding? ==> s.timeouts != [])
  }

  lemma StepKeepsSound(s: State, e: Event)
    requires Sound(s) && Enabled(s, e)
    ensures Sound(Apply(s, e))
  {
    StepKeepsOwned(s, e);
    StepKeepsDistinct(s, e);
    StepKeepsReadings(s, e);
  }

  lemma {:induction false} RunKeepsSound(s: State, run: seq<Event>)
    requires Sound(s) && Legal(s, run)
    ensures Sound(Final(s, run))
    decreases |run|
  {
    if run != [] {
      StepKeepsSound(s, run[0]);
      RunKeepsSound(Apply(s, run[0]), run[1..]);
    }
  }

  // ------------------------------------------------------------- the condition

  /** Between the save and the deadline step. */
  predicate Arming(pc: Pc) {
    pc.Saved? || pc.Stamped?
  }

  /** No other caller with the same id has still to enter its deadline. */
  ghost predicate Alone(s: State, m: nat) {
    forall k :: 0 <= k < |s.msgs| && k != m && IdOf(k) == IdOf(m) ==> !Arming(s.msgs[k].pc)
  }

  /** The entries that sweeps have yet to look at: not the one a sweep holds already. */
  function Ahead(s: State): seq<Entry> {
    if s.net.SweepHolding? && s.timeouts != [] then s.timeouts[1..] else s.timeouts
  }

  /**
   Nothing is left of an earlier request under this id that could time out `m`: no other caller has still to enter
   its deadline, and an entry that is in the list the net thread drops before it sweeps again.
   */
  ghost predicate FreshId(s: State, m: nat) {
    Alone(s, m) && forall x <- Ahead(s) :: x.key == IdOf(m) ==> IdOf(m) in Dropping(s.net)
  }

  predicate OwnEntry(s: State, m: nat, x: Entry) {
    m in s.readAt && x.time == s.readAt[m] + TIMEOUT
  }

  ghost predicate OwnEntries(s: State, m: nat) {
    forall x <- Ahead(s) :: x.key == IdOf(m) ==> OwnEntry(s, m, x) || IdOf(m) in Dropping(s.net)
  }

  /** The id is in the list by the request's own doing. */
  predicate AddedItself(s: State, m: nat) {
    PastDeadline(s, m) ==> IdOf(m) in s.addedAt && s.addedAt[IdOf(m)].m == m
  }

  ghost predicate Clear(s: State, m: nat) {
    Alone(s, m) && OwnEntries(s, m) && AddedItself(s, m)
  }

  predicate InTime(s: State, m: nat) {
    s.net.SweepHolding? && s.net.taken == Some(m) ==> m in s.readAt && s.readAt[m] + TIMEOUT <= s.net.now
  }

  /** Once saved, a request is only under its own deadline. */
  ghost predicate Unhurried(s: State, m: nat) {
    m < |s.msgs| && PastSave(s.msgs[m].pc) ==> (Pends(s, m) ==> Clear(s, m)) && InTime(s, m)
  }

  // ------------------------------------------------------- the condition suffices

  lemma RemoveShrinks(l: seq<Entry>, key: Key)
    ensures forall x <- Remove(l, key) :: x in l
    ensures Distinct(l) ==> forall x <- Remove(l, key) :: x.key != key
  {
    var r, at := Remove(l, key), Find(l, key);
    if at < |l| {
      assert forall i :: 0 <= i < at ==> r[i] == l[i];
      assert forall i :: at <= i < |r| ==> r[i] == l[i + 1];
    }
  }

  /** A request that is pending was pending before, unless it has just been saved. */
  lemma PendedBefore(s: State, e: Event, m: nat)
    requires Enabled(s, e) && e != Save(m) && Pends(Apply(s, e), m)
    ensures Pends(s, m) && !(e.Save? && IdOf(e.m) == IdOf(m))
  {
  }

  lemma StaysAlone(s: State, e: Event, m: nat)
    requires Alone(s, m) && Enabled(s, e) && !(e.Save? && IdOf(e.m) == IdOf(m))
    ensures Alone(Apply(s, e), m)
  {
  }

  lemma ArmingKeepsEntries(s: State, m: nat, k: nat)
    requires Sound(s) && Alone(s, m) && OwnEntries(s, m) && Enabled(s, AddDeadline(k))
    ensures OwnEntries(Apply(s, AddDeadline(k)), m)
  {
    var t, time := Apply(s, AddDeadline(k)), s.msgs[k].pc.now + TIMEOUT;
    AddDeadlineAppends(s, k);
    RemoveShrinks(s.timeouts, IdOf(k));
    forall x <- Ahead(t) | x.key == IdOf(m) ensures OwnEntry(t, m, x) || IdOf(m) in Dropping(t.net) {
      if x in Remove(s.timeouts, IdOf(k)) {
        assert x in Ahead(s);
      } else {
        assert x == Entry(IdOf(k), time) && k == m;
      }
    }
  }

  lemma DropKeepsEntries(s: State, e: Event, m: nat)
    requires Sound(s) && OwnEntries(s, m) && Enabled(s, e) && (e.ForgetAnswered? || e.ForgetClosed?)
    ensures OwnEntries(Apply(s, e), m)
  {
    var t, key := Apply(s, e), DroppedKey(s, e).value;
    RemoveShrinks(s.timeouts, key);
    forall x <- Ahead(t) | x.key == IdOf(m) ensures OwnEntry(t, m, x) || IdOf(m) in Dropping(t.net) {
      assert x in Ahead(s) && IdOf(m) != key;
    }
  }

  /** Steps that leave the timeout list alone, or only look at its front. */
  lemma OthersKeepEntries(s: State, e: Event, m: nat)
    requires Sound(s) && OwnEntries(s, m) && Enabled(s, e)
    requires !e.AddDeadline? && !e.ForgetAnswered? && !e.ForgetClosed?
    ensures OwnEntries(Apply(s, e), m)
  {
    var t := Apply(s, e);
    forall x <- Ahead(t) | x.key == IdOf(m) ensures OwnEntry(t, m, x) || IdOf(m) in Dropping(t.net) {
      assert x in Ahead(s);
      if OwnEntry(s, m, x) {
        ReadingStays(s, e, m);
      } else {
        assert IdOf(m) in Dropping(s.net);
      }
    }
  }

  lemma StepKeepsEntries(s: State, e: Event, m: nat)
    requires Sound(s) && Alone(s, m) && OwnEntries(s, m) && Enabled(s, e)
    ensures OwnEntries(Apply(s, e), m)
  {
    if e.AddDeadline? {
      ArmingKeepsEntries(s, m, e.m);
    } else if e.ForgetAnswered? || e.ForgetClosed? {
      DropKeepsEntries(s, e, m);
    } else {
      OthersKeepEntries(s, e, m);
    }
  }

  lemma StepKeepsAdded(s: State, e: Event, m: nat)
    requires Alone(s, m) && AddedItself(s, m) && Enabled(s, e) && m < |s.msgs| && PastSave(s.msgs[m].pc)
    ensures AddedItself(Apply(s, e), m)
  {
  }

  lemma TakesInTime(s: State, m: nat)
    requires Sound(s) && Enabled(s, TakeDue) && (Pends(s, m) ==> Clear(s, m))
    ensures InTime(Apply(s, TakeDue), m)
  {
    var key := s.timeouts[0].key;
    if key in s.pending && s.pending[key] == m {
      assert IdOf(m) == key && s.timeouts[0] in Ahead(s);
    }
  }

  lemma StepKeepsInTime(s: State, e: Event, m: nat)
    requires Sound(s) && InTime(s, m) && Enabled(s, e) && (Pends(s, m) ==> Clear(s, m))
    ensures InTime(Apply(s, e), m)
  {
    if e.TakeDue? {
      TakesInTime(s, m);
    } else if s.net.SweepHolding? && s.net.taken == Some(m) {
      ReadingStays(s, e, m);
    }
  }

  lemma FreshSave(s: State, m: nat)
    requires Sound(s) && Enabled(s, Save(m)) && FreshId(s, m)
    ensures Unhurried(Apply(s, Save(m)), m)
  {
    var t := Apply(s, Save(m));
    assert Ahead(t) == Ahead(s);
    assert m in Held(s.net) ==> Waiting(s, m);
  }

  lemma NotYetSaved(s: State, e: Event, m: nat)
    requires Sound(s) && Enabled(s, e) && !(m < |s.msgs| && PastSave(s.msgs[m].pc)) && e != Save(m)
    ensures !Pends(Apply(s, e), m) && InTime(Apply(s, e), m)
  {
    assert Pends(s, m) ==> Waiting(s, m);
    assert m in Held(s.net) ==> Waiting(s, m);
    assert e.TakeDue? && s.timeouts[0].key in s.pending ==> Waiting(s, s.pending[s.timeouts[0].key]);
  }

  lemma StepKeepsUnhurried(s: State, e: Event, m: nat)
    requires Sound(s) && Unhurried(s, m) && Enabled(s, e) && (e == Save(m) ==> FreshId(s, m))
    ensures Unhurried(Apply(s, e), m)
  {
    if e == Save(m) {
      FreshSave(s, m);
    } else if m < |s.msgs| && PastSave(s.msgs[m].pc) {
      StepKeepsInTime(s, e, m);
      if Pends(Apply(s, e), m) {
        PendedBefore(s, e, m);
        StaysAlone(s, e, m);
        StepKeepsEntries(s, e, m);
        StepKeepsAdded(s, e, m);
      }
    } else {
      NotYetSaved(s, e, m);
    }
  }

  /** The request is saved, if at all, under a fresh id. */
  ghost predicate SavedFresh(s: State, run: seq<Event>, m: nat)
    requires Legal(s, run)
    decreases |run|
  {
    run == [] || ((run[0] == Save(m) ==> FreshId(s, m)) && SavedFresh(Apply(s, run[0]), run[1..], m))
  }

  lemma NotEarly(s: State, e: Event, m: nat)
    requires Sound(s) && Unhurried(s, m) && Enabled(s, e)
    ensures !TimesOutEarly(s, e, m)
  {
    if e.FinishDue? && s.net.taken == Some(m) {
      assert m in Held(s.net) && Waiting(s, m);
    }
  }

  lemma {:induction false} FreshNeverEarly(s: State, run: seq<Event>, m: nat)
    requires Sound(s) && Unhurried(s, m) && Legal(s, run) && SavedFresh(s, run, m)
    ensures !EverEarly(s, run, m) && Sound(Final(s, run)) && Unhurried(Final(s, run), m)
    decreases |run|
  {
    if run != [] {
      NotEarly(s, run[0], m);
      StepKeepsSound(s, run[0]);
      StepKeepsUnhurried(s, run[0], m);
      FreshNeverEarly(Apply(s, run[0]), run[1..], m);
    }
  }

  /** A request saved under a fresh id is never timed out early, whatever else happens in the run. */
  lemma NeverTimedOutEarly(run: seq<Event>, m: nat)
    requires Legal(INITIAL, run) && SavedFresh(INITIAL, run, m)
    ensures !EverEarly(INITIAL, run, m)
  {
    FreshNeverEarly(INITIAL, run, m);
  }

  /**
   And no sweep leaves it behind for long: when a sweep ends, a request that is still pending entered its own deadline
   less than TIMEOUT before the clock reading of the sweep.
   */
  lemma SweepCompletesOwnOverdue(run: seq<Event>, m: nat)
    requires Legal(INITIAL, run) && NeverReuses(INITIAL, run) && SavedFresh(INITIAL, run, m)
    requires var s := Final(INITIAL, run); Enabled(s, EndSweep) && Pends(s, m) && PastDeadline(s, m)
    ensures var s := Final(INITIAL, run);
            && IdOf(m) in s.addedAt && s.addedAt[IdOf(m)].m == m
            && s.addedAt[IdOf(m)].clock + TIMEOUT > s.net.now
  {
    FreshNeverEarly(INITIAL, run, m);
    SweepCompletesOverdue(run, IdOf(m));
  }

  // ------------------------------------------------------- the condition is needed

  /** The request has been saved and its caller has not read the clock yet. */
  ghost predicate Calm(s: State, m: nat) {
    Sound(s) && Pends(s, m) && At(s, m, Saved)
  }

  /** An entry under the id of `m` that the net thread is not going to drop. */
  ghost predicate StaleAhead(s: State, m: nat) {
    IdOf(m) in Keys(Ahead(s)) && IdOf(m) !in Dropping(s.net)
  }

  /** Either `m` is timed out early on the way, or the net thread comes to rest and nothing has changed for `m`. */
  ghost predicate Settles(s: State, run: seq<Event>, m: nat) {
    && Legal(s, run)
    && (!EverEarly(s, run, m) ==>
          && Final(s, run).net == Idle && Calm(Final(s, run), m) && SamePcs(s, Final(s, run))
          && (StaleAhead(s, m) ==> StaleAhead(Final(s, run), m)))
  }

  lemma NetKeepsCalm(s: State, e: Event, m: nat)
    requires Calm(s, m) && Enabled(s, e) && !ByCaller(e) && Pends(Apply(s, e), m)
    ensures Calm(Apply(s, e), m) && SamePcs(s, Apply(s, e))
  {
    StepKeepsSound(s, e);
    NetKeepsPcs(s, e);
  }

  lemma EarlyNow(s: State, m: nat)
    requires Calm(s, m) && Enabled(s, TakeDue) && s.timeouts[0].key == IdOf(m)
    ensures Legal(s, [TakeDue, FinishDue]) && EverEarly(s, [TakeDue, FinishDue], m)
  {
    var t, run := Apply(s, TakeDue), [TakeDue, FinishDue];
    assert TimesOutEarly(t, FinishDue, m);
    assert run[1..] == [FinishDue] && [FinishDue][1..] == [];
    assert Legal(t, [FinishDue]) && EverEarly(t, [FinishDue], m);
  }

  lemma StaleStays(s: State, e: Event, m: nat)
    requires Sound(s) && Enabled(s, e) && StaleAhead(s, m)
    requires e.ForgetAnswered? || e.ForgetClosed? || e.FinishClosed? || e.FinishAnswered? || e.EndClose? || e.EndSweep?
             || e.FinishDue? || (e.TakeDue? && s.timeouts[0].key != IdOf(m))
    ensures StaleAhead(Apply(s, e), m)
  {
    if e.ForgetAnswered? || e.ForgetClosed? {
      DropKeys(s, e);
    } else if e.TakeDue? {
      var i :| 0 <= i < |s.timeouts| && s.timeouts[i].key == IdOf(m);
      assert s.timeouts[1..][i - 1] == s.timeouts[i];
    }
  }

  lemma SettleOn(s: State, e: Event, rest: seq<Event>, m: nat)
    requires Calm(s, m) && Enabled(s, e) && !ByCaller(e) && Pends(Apply(s, e), m)
    requires StaleAhead(s, m) ==> StaleAhead(Apply(s, e), m)
    requires Settles(Apply(s, e), rest, m)
    ensures Settles(s, [e] + rest, m)
    ensures Final(s, [e] + rest) == Final(Apply(s, e), rest)
    ensures !EverEarly(s, [e] + rest, m) ==> !EverEarly(Apply(s, e), rest, m)
  {
    NetKeepsCalm(s, e, m);
    Then(s, e, rest);
    assert ([e] + rest)[1..] == rest;
  }

  lemma SettleStep(s: State, e: Event, rest: seq<Event>, m: nat)
    requires Calm(s, m) && Enabled(s, e)
    requires e.ForgetAnswered? || e.ForgetClosed? || e.FinishClosed? || e.FinishAnswered? || e.EndClose? || e.EndSweep?
             || e.FinishDue? || (e.TakeDue? && s.timeouts[0].key != IdOf(m))
    requires Settles(Apply(s, e), rest, m)
    ensures Settles(s, [e] + rest, m)
    ensures Final(s, [e] + rest) == Final(Apply(s, e), rest)
    ensures !EverEarly(s, [e] + rest, m) ==> !EverEarly(Apply(s, e), rest, m)
  {
    if StaleAhead(s, m) {
      StaleStays(s, e, m);
    }
    SettleOn(s, e, rest, m);
  }

  lemma EndNow(s: State, m: nat)
    requires Calm(s, m) && Enabled(s, EndSweep)
    ensures Settles(s, [EndSweep] + [], m) && Final(s, [EndSweep] + []).timeouts == s.timeouts
  {
    NetKeepsCalm(s, EndSweep, m);
    SettleStep(s, EndSweep, [], m);
  }

  /** One turn of a sweep that is not about `m`. */
  lemma FireOther(s: State, m: nat)
    requires Calm(s, m) && Enabled(s, TakeDue) && s.timeouts[0].key != IdOf(m)
    ensures var t := Apply(s, TakeDue);
            Calm(t, m) && Enabled(t, FinishDue) && Calm(Apply(t, FinishDue), m)
  {
    var t := Apply(s, TakeDue);
    NetKeepsCalm(s, TakeDue, m);
    assert t.net.taken.Some? ==> t.net.taken.value in Held(t.net) && Waiting(t, t.net.taken.value);
    NetKeepsCalm(t, FinishDue, m);
  }

  lemma FireOtherFirst(s: State, m: nat, rest: seq<Event>)
    requires Calm(s, m) && Enabled(s, TakeDue) && s.timeouts[0].key != IdOf(m)
    requires Calm(Apply(s, TakeDue), m) && Enabled(Apply(s, TakeDue), FinishDue)
    requires Settles(Apply(Apply(s, TakeDue), FinishDue), rest, m)
    ensures var run, u := [TakeDue] + ([FinishDue] + rest), Apply(Apply(s, TakeDue), FinishDue);
            && Settles(s, run, m) && Final(s, run) == Final(u, rest)
            && (!EverEarly(s, run, m) ==> !EverEarly(u, rest, m))
  {
    SettleStep(Apply(s, TakeDue), FinishDue, rest, m);
    SettleStep(s, TakeDue, [FinishDue] + rest, m);
  }

  lemma {:induction false} FinishSweep(s: State, m: nat) returns (run: seq<Event>)
    requires Calm(s, m) && s.net.Sweeping?
    ensures Settles(s, run, m)
    ensures !EverEarly(s, run, m) && (forall x <- s.timeouts :: x.time <= s.net.now) ==> Final(s, run).timeouts == []
    decreases |s.timeouts|
  {
    if Enabled(s, EndSweep) {
      EndNow(s, m);
      run := [EndSweep] + [];
    } else if s.timeouts[0].key == IdOf(m) {
      run := [TakeDue, FinishDue];
      EarlyNow(s, m);
    } else {
      FireOther(s, m);
      var u := Apply(Apply(s, TakeDue), FinishDue);
      var rest := FinishSweep(u, m);
      FireOtherFirst(s, m, rest);
      run := [TakeDue] + ([FinishDue] + rest);
      assert forall x <- u.timeouts :: x in s.timeouts;
    }
  }

  /** One turn of the loop in onClose. */
  lemma CloseOne(s: State, h: nat, m: nat)
    requires Calm(s, m) && Enabled(s, FinishClosed(h))
    ensures var t := Apply(s, FinishClosed(h));
            && Calm(t, m) && Enabled(t, ForgetClosed) && Calm(Apply(t, ForgetClosed), m)
            && Apply(t, ForgetClosed).net == Closing(s.net.held - {h}, s.net.status)
  {
    NetKeepsCalm(s, FinishClosed(h), m);
    NetKeepsCalm(Apply(s, FinishClosed(h)), ForgetClosed, m);
  }

  lemma CloseOneFirst(s: State, h: nat, m: nat, rest: seq<Event>)
    requires Calm(s, m) && Enabled(s, FinishClosed(h))
    requires Calm(Apply(s, FinishClosed(h)), m) && Enabled(Apply(s, FinishClosed(h)), ForgetClosed)
    requires Settles(Apply(Apply(s, FinishClosed(h)), ForgetClosed), rest, m)
    ensures Settles(s, [FinishClosed(h)] + ([ForgetClosed] + rest), m)
  {
    SettleStep(Apply(s, FinishClosed(h)), ForgetClosed, rest, m);
    SettleStep(s, FinishClosed(h), [ForgetClosed] + rest, m);
  }

  lemma {:induction false} FinishClose(s: State, m: nat) returns (run: seq<Event>)
    requires Calm(s, m) && s.net.Closing?
    ensures Settles(s, run, m)
    decreases s.net.held
  {
    if s.net.held == {} {
      NetKeepsCalm(s, EndClose, m);
      SettleStep(s, EndClose, [], m);
      run := [EndClose] + [];
    } else {
      var h :| h in s.net.held;
      assert Waiting(s, h);
      CloseOne(s, h, m);
      var t := Apply(s, FinishClosed(h));
      var rest := FinishClose(Apply(t, ForgetClosed), m);
      CloseOneFirst(s, h, m, rest);
      run := [FinishClosed(h)] + ([ForgetClosed] + rest);
    }
  }

  /** One more step of the net thread, and what is left to do is one of the loops or nothing. */
  lemma FinishReply(s: State, m: nat) returns (run: seq<Event>)
    requires Calm(s, m) && s.net.Answered?
    ensures Settles(s, run, m)
  {
    assert s.net.m in Held(s.net) && Waiting(s, s.net.m);
    NetKeepsCalm(s, FinishAnswered, m);
    SettleStep(s, FinishAnswered, [], m);
    run := [FinishAnswered] + [];
  }

  /** The net thread can always finish what it is doing. */
  lemma Settle(s: State, m: nat) returns (run: seq<Event>)
    requires Calm(s, m)
    ensures Settles(s, run, m)
  {
    match s.net
    case Idle => run := [];
    case Answering(_, _) =>
      NetKeepsCalm(s, ForgetAnswered, m);
      var rest := FinishReply(Apply(s, ForgetAnswered), m);
      SettleStep(s, ForgetAnswered, rest, m);
      run := [ForgetAnswered] + rest;
    case Answered(_, _) => run := FinishReply(s, m);
    case Closing(_, _) => run := FinishClose(s, m);
    case Forgetting(_, _, _) =>
      NetKeepsCalm(s, ForgetClosed, m);
      var rest := FinishClose(Apply(s, ForgetClosed), m);
      SettleStep(s, ForgetClosed, rest, m);
      run := [ForgetClosed] + rest;
    case Sweeping(_, _, _) => run := FinishSweep(s, m);
    case SweepHolding(_, _, _, taken) =>
      assert taken.Some? ==> taken.value in Held(s.net) && Waiting(s, taken.value);
      NetKeepsCalm(s, FinishDue, m);
      var rest := FinishSweep(Apply(s, FinishDue), m);
      SettleStep(s, FinishDue, rest, m);
      run := [FinishDue] + rest;
  }

  lemma {:induction false} EarlyJoin(s: State, first: seq<Event>, second: seq<Event>, m: nat)
    requires Legal(s, first) && Legal(Final(s, first), second)
    ensures Legal(s, first + second) && Final(s, first + second) == Final(Final(s, first), second)
    ensures EverEarly(s, first + second, m) <==> EverEarly(s, first, m) || EverEarly(Final(s, first), second, m)
    decreases |first|
  {
    Join(s, first, second);
    if first == [] {
      assert first + second == second;
    } else {
      EarlyJoin(Apply(s, first[0]), first[1..], second, m);
      assert (first + second)[0] == first[0] && (first + second)[1..] == first[1..] + second;
    }
  }

  lemma EarlyLater(s: State, e: Event, rest: seq<Event>, m: nat)
    requires Enabled(s, e) && Legal(Apply(s, e), rest) && EverEarly(Apply(s, e), rest, m)
    ensures Legal(s, [e] + rest) && EverEarly(s, [e] + rest, m)
  {
    Then(s, e, rest);
    assert ([e] + rest)[1..] == rest;
  }

  function Latest(l: seq<Entry>): (r: nat)
    ensures forall x <- l :: x.time <= r
  {
    if l == [] then 0
    else
      var r := Latest(l[1..]);
      assert l == [l[0]] + l[1..];
      if l[0].time > r then l[0].time else r
  }

  lemma SweepAllTakes(s: State, m: nat) returns (rest: seq<Event>)
    requires Calm(s, m) && s.net == Idle && StaleAhead(s, m) && forall x <- s.timeouts :: x.time <= s.clock
    ensures var t := Apply(s, BeginSweep(s.clock)); Legal(t, rest) && EverEarly(t, rest, m)
  {
    StepKeepsSound(s, BeginSweep(s.clock));
    rest := FinishSweep(Apply(s, BeginSweep(s.clock)), m);
  }

  /** Any entry under the id times the request out, as long as its caller is slow enough. */
  lemma SweepTakes(s: State, m: nat) returns (run: seq<Event>)
    requires Calm(s, m) && s.net == Idle && StaleAhead(s, m)
    ensures Legal(s, run) && EverEarly(s, run, m)
  {
    var wait := Tick(Latest(s.timeouts));
    var t := Apply(s, wait);
    var begin := BeginSweep(t.clock);
    StepKeepsSound(s, wait);
    var rest := SweepAllTakes(t, m);
    EarlyLater(t, begin, rest, m);
    EarlyLater(s, wait, [begin] + rest, m);
    run := [wait] + ([begin] + rest);
  }

  lemma StaleFires(s: State, m: nat) returns (run: seq<Event>)
    requires Calm(s, m) && StaleAhead(s, m)
    ensures Legal(s, run) && EverEarly(s, run, m)
  {
    run := Settle(s, m);
    if !EverEarly(s, run, m) {
      var more := SweepTakes(Final(s, run), m);
      EarlyJoin(s, run, more, m);
      run := run + more;
    }
  }

  /** The other caller enters its deadline, under the same id. */
  lemma OtherArms(s: State, k: nat, m: nat) returns (run: seq<Event>)
    requires Calm(s, m) && s.net == Idle && k < |s.msgs| && k != m && IdOf(k) == IdOf(m) && s.msgs[k].pc.Stamped?
    ensures Legal(s, run) && EverEarly(s, run, m)
  {
    var t := Apply(s, AddDeadline(k));
    StepKeepsSound(s, AddDeadline(k));
    AddDeadlineKeys(s, k);
    var rest := SweepTakes(t, m);
    EarlyLater(s, AddDeadline(k), rest, m);
    run := [AddDeadline(k)] + rest;
  }

  lemma OtherFires(s: State, k: nat, m: nat) returns (run: seq<Event>)
    requires Calm(s, m) && k < |s.msgs| && k != m && IdOf(k) == IdOf(m) && Arming(s.msgs[k].pc)
    ensures Legal(s, run) && EverEarly(s, run, m)
  {
    run := Settle(s, m);
    if !EverEarly(s, run, m) {
      var t := Final(s, run);
      var more;
      if t.msgs[k].pc.Stamped? {
        more := OtherArms(t, k, m);
      } else {
        StepKeepsSound(t, ReadClock(k));
        var rest := OtherArms(Apply(t, ReadClock(k)), k, m);
        EarlyLater(t, ReadClock(k), rest, m);
        more := [ReadClock(k)] + rest;
      }
      EarlyJoin(s, run, more, m);
      run := run + more;
    }
  }

  lemma UnfreshFires(s: State, m: nat) returns (run: seq<Event>)
    requires Sound(s) && Enabled(s, Save(m)) && !FreshId(s, m)
    ensures Legal(Apply(s, Save(m)), run) && EverEarly(Apply(s, Save(m)), run, m)
  {
    var t := Apply(s, Save(m));
    StepKeepsSound(s, Save(m));
    if Alone(s, m) {
      var x :| x in Ahead(s) && x.key == IdOf(m) && IdOf(m) !in Dropping(s.net);
      assert x in Ahead(t);
      run := StaleFires(t, m);
    } else {
      var k :| 0 <= k < |s.msgs| && k != m && IdOf(k) == IdOf(m) && Arming(s.msgs[k].pc);
      run := OtherFires(t, k, m);
    }
  }

  lemma {:induction false} FreshStays(s: State, run: seq<Event>, m: nat)
    requires Legal(s, run) && m < |s.msgs| && PastSave(s.msgs[m].pc)
    ensures SavedFresh(s, run, m)
    decreases |run|
  {
    if run != [] {
      FreshStays(Apply(s, run[0]), run[1..], m);
    }
  }

  ghost predicate NeverEarly(s: State, m: nat) {
    forall run :: Legal(s, run) ==> !EverEarly(s, run, m)
  }

  /**
   Exactly when a save is safe from the deadlines of earlier requests: no continuation whatsoever times the request out
   before its own deadline if and only if its id is fresh.
   */
  lemma SaveUnhurriedIff(before: seq<Event>, m: nat)
    requires Legal(INITIAL, before) && Enabled(Final(INITIAL, before), Save(m))
    ensures var s := Final(INITIAL, before);
            var t := Apply(s, Save(m));
            FreshId(s, m) <==> NeverEarly(t, m)
  {
    RunKeepsSound(INITIAL, before);
    var s := Final(INITIAL, before);
    var t := Apply(s, Save(m));
    if FreshId(s, m) {
      FreshSave(s, m);
      StepKeepsSound(s, Save(m));
      forall run | Legal(t, run) ensures !EverEarly(t, run, m) {
        FreshStays(t, run, m);
        FreshNeverEarly(t, run, m);
      }
    } else {
      var run := UnfreshFires(s, m);
      assert Legal(t, run) && EverEarly(t, run, m) && !NeverEarly(t, m);
    }
  }

  // --------------------------------------------------------- the first 2^32 requests

  /** Every key of the timeout list belongs to a request past its own deadline step. */
  ghost predicate KeysArmed(s: State) {
    forall k <- Keys(s.timeouts) :: PastDeadline(s, k)
  }

  lemma ArmedStays(s: State, e: Event, k: nat)
    requires Enabled(s, e) && PastDeadline(s, k)
    ensures PastDeadline(Apply(s, e), k)
  {
  }

  lemma StepKeepsKeysArmed(s: State, e: Event)
    requires Distinct(s.timeouts) && KeysArmed(s) && Enabled(s, e) && FirstRound(s)
    ensures KeysArmed(Apply(s, e))
  {
    var t := Apply(s, e);
    forall k <- Keys(t.timeouts) ensures PastDeadline(t, k) {
      if e.AddDeadline? {
        AddDeadlineKeys(s, e.m);
      } else if DroppedKey(s, e).Some? {
        DropKeys(s, e);
      }
      if k in Keys(s.timeouts) {
        ArmedStays(s, e, k);
      }
    }
  }

  lemma FirstRoundFresh(s: State, m: nat)
    requires KeysArmed(s) && FirstRound(s) && Enabled(s, Save(m))
    ensures FreshId(s, m)
  {
    forall x <- Ahead(s) ensures x.key != IdOf(m) {
      assert x in s.timeouts && x.key in Keys(s.timeouts);
    }
  }

  lemma {:induction false} FirstRoundSavedFresh(s: State, run: seq<Event>, m: nat)
    requires Distinct(s.timeouts) && KeysArmed(s) && Legal(s, run) && FirstRound(Final(s, run))
    ensures SavedFresh(s, run, m)
    decreases |run|
  {
    if run != [] {
      MessagesOnlyGrow(s, run);
      if run[0] == Save(m) {
        FirstRoundFresh(s, m);
      }
      StepKeepsKeysArmed(s, run[0]);
      StepKeepsDistinct(s, run[0]);
      FirstRoundSavedFresh(Apply(s, run[0]), run[1..], m);
    }
  }

  /** Among the first 2^32 requests, deadlines added after an early reply are harmless: nobody is timed out early. */
  lemma StaleDeadlinesHarmless(run: seq<Event>, m: nat)
    requires Legal(INITIAL, run) && FirstRound(Final(INITIAL, run))
    ensures !EverEarly(INITIAL, run, m)
  {
    FirstRoundSavedFresh(INITIAL, run, m);
    NeverTimedOutEarly(run, m);
  }

  // -------------------------------------------------- a stale deadline that hurts

  lemma Further(s: State, e: Event, rest: seq<Event>, m: nat)
    requires Enabled(s, e) && !Reuses(s, e) && Legal(Apply(s, e), rest) && NeverReuses(Apply(s, e), rest)
    ensures Legal(s, [e] + rest) && NeverReuses(s, [e] + rest) && Final(s, [e] + rest) == Final(Apply(s, e), rest)
    ensures EverEarly(s, [e] + rest, m) <==> TimesOutEarly(s, e, m) || EverEarly(Apply(s, e), rest, m)
  {
    Then(s, e, rest);
    assert ([e] + rest)[1..] == rest;
  }

  lemma {:induction false} CarefulJoin(s: State, first: seq<Event>, second: seq<Event>)
    requires Legal(s, first) && Legal(Final(s, first), second)
    requires NeverReuses(s, first) && NeverReuses(Final(s, first), second)
    ensures Legal(s, first + second) && NeverReuses(s, first + second)
    decreases |first|
  {
    Join(s, first, second);
    if first == [] {
      assert first + second == second;
    } else {
      CarefulJoin(Apply(s, first[0]), first[1..], second);
      assert (first + second)[0] == first[0] && (first + second)[1..] == first[1..] + second;
    }
  }

  /** The other caller has not begun to send, and nothing is going on. */
  ghost predicate Resting(s: State, pc: Pc) {
    && s.clock == 0 && s.pending == map[] && s.net == Idle && |s.msgs| == U32 + 1
    && s.msgs[0].pc == pc && s.msgs[U32] == BEGUN && U32 !in s.readAt
  }

  /** A reply takes request 0 out of the pending map, which is empty then. */
  lemma AnswerPending(s: State) returns (run: seq<Event>)
    requires Resting(s.(pending := map[]), Saved) && s.pending == map[0 := 0] && s.timeouts == []
    ensures Legal(s, run) && NeverReuses(s, run)
    ensures Resting(Final(s, run), Saved) && Final(s, run).timeouts == []
  {
    var reply := Packet(Response(0, 0));
    var a := Apply(s, reply);
    var b := Apply(a, ForgetAnswered);
    Further(b, FinishAnswered, [], 0);
    Further(a, ForgetAnswered, [FinishAnswered] + [], 0);
    Further(s, reply, [ForgetAnswered] + ([FinishAnswered] + []), 0);
    run := [reply] + ([ForgetAnswered] + ([FinishAnswered] + []));
    assert a.pending == map[];
  }

  /** Request 0 is answered right after it was saved. */
  lemma AnswerEarly() returns (run: seq<Event>)
    ensures var s := AllBegun(U32 + 1);
            && Legal(s, run) && NeverReuses(s, run)
            && Resting(Final(s, run), Saved) && Final(s, run).timeouts == []
  {
    var s := AllBegun(U32 + 1);
    var a := Apply(s, Send(0, 0));
    var rest := AnswerPending(Apply(a, Save(0)));
    Further(a, Save(0), rest, 0);
    Further(s, Send(0, 0), [Save(0)] + rest, 0);
    run := [Send(0, 0)] + ([Save(0)] + rest);
  }

  /** Its caller enters the deadline nevertheless. */
  lemma ArmLate(s: State) returns (run: seq<Event>)
    requires Resting(s, Saved) && s.timeouts == []
    ensures Legal(s, run) && NeverReuses(s, run)
    ensures Resting(Final(s, run), Armed) && Final(s, run).timeouts == [Entry(0, TIMEOUT)]
  {
    var t := Apply(s, ReadClock(0));
    AppendNew([], 0, TIMEOUT);
    Further(t, AddDeadline(0), [], 0);
    Further(s, ReadClock(0), [AddDeadline(0)] + [], 0);
    run := [ReadClock(0)] + ([AddDeadline(0)] + []);
  }

  ghost predicate Hurt(s: State) {
    && |s.msgs| == U32 + 1 && s.msgs[U32].completions == 1 && s.msgs[U32].status == TimeOut
    && U32 in s.readAt && s.readAt[U32] == s.clock
  }

  lemma FireOldEntry(s: State) returns (run: seq<Event>)
    requires s.net == Sweeping(TIMEOUT, s.timeouts, 0) && s.timeouts == [Entry(0, TIMEOUT)]
    requires s.pending == map[0 := U32]
    requires |s.msgs| == U32 + 1 && s.msgs[U32] == BEGUN.(pc := Stamped(TIMEOUT), ep := Some(0))
    requires s.clock == TIMEOUT && U32 in s.readAt && s.readAt[U32] == TIMEOUT
    ensures Legal(s, run) && NeverReuses(s, run) && EverEarly(s, run, U32) && Hurt(Final(s, run))
  {
    var t := Apply(s, TakeDue);
    Further(t, FinishDue, [], U32);
    Further(s, TakeDue, [FinishDue] + [], U32);
    run := [TakeDue] + ([FinishDue] + []);
    assert TimesOutEarly(t, FinishDue, U32);
  }

  /** Request 2^32 reads the clock, and the sweep at that very moment finds the entry of request 0 under its id. */
  lemma SweepHurts(s: State) returns (run: seq<Event>)
    requires s.clock == TIMEOUT && s.net == Idle && s.timeouts == [Entry(0, TIMEOUT)] && s.pending == map[0 := U32]
    requires |s.msgs| == U32 + 1 && s.msgs[U32] == BEGUN.(pc := Saved, ep := Some(0))
    ensures Legal(s, run) && NeverReuses(s, run) && EverEarly(s, run, U32) && Hurt(Final(s, run))
  {
    var a := Apply(s, ReadClock(U32));
    var rest := FireOldEntry(Apply(a, BeginSweep(TIMEOUT)));
    Further(a, BeginSweep(TIMEOUT), rest, U32);
    Further(s, ReadClock(U32), [BeginSweep(TIMEOUT)] + rest, U32);
    run := [ReadClock(U32)] + ([BeginSweep(TIMEOUT)] + rest);
  }

  lemma SaveUnderOldId(s: State) returns (run: seq<Event>)
    requires Resting(s, Armed) && s.timeouts == [Entry(0, TIMEOUT)]
    ensures Legal(s, run) && NeverReuses(s, run) && EverEarly(s, run, U32) && Hurt(Final(s, run))
  {
    var a := Apply(s, Send(U32, 0));
    var b := Apply(a, Save(U32));
    assert IdOf(U32) == 0;
    var rest := SweepHurts(Apply(b, Tick(TIMEOUT)));
    Further(b, Tick(TIMEOUT), rest, U32);
    Further(a, Save(U32), [Tick(TIMEOUT)] + rest, U32);
    Further(s, Send(U32, 0), [Save(U32)] + ([Tick(TIMEOUT)] + rest), U32);
    run := [Send(U32, 0)] + ([Save(U32)] + ([Tick(TIMEOUT)] + rest));
  }

  /**
   After 2^32 requests a stale deadline hurts, even when no request is saved under an id in use: request 2^32 is
   completed with TimeOut at the very clock value it has just read.
   */
  lemma StaleDeadlineCanHurt() returns (run: seq<Event>)
    ensures Legal(INITIAL, run) && NeverReuses(INITIAL, run)
    ensures EverEarly(INITIAL, run, U32) && Hurt(Final(INITIAL, run))
  {
    var begin := BeginMany(U32 + 1);
    var s := AllBegun(U32 + 1);
    NoSaveNoReuse(INITIAL, begin);
    var answer := AnswerEarly();
    var t := Final(s, answer);
    var arm := ArmLate(t);
    var hurt := SaveUnderOldId(Final(t, arm));
    CarefulJoin(t, arm, hurt);
    EarlyJoin(t, arm, hurt, U32);
    CarefulJoin(s, answer, arm + hurt);
    EarlyJoin(s, answer, arm + hurt, U32);
    CarefulJoin(INITIAL, begin, answer + (arm + hurt));
    EarlyJoin(INITIAL, begin, answer + (arm + hurt), U32);
    run := begin + (answer + (arm + hurt));
  }
}
