/**
 * What the operations of a unit of work come to, from any state in which they can be called: which
 * control function is sent, how the work ends, and how its lease is handed over. And over whole
 * runs: which requests the control functions answer.
 */
module TransactionPaths {
  import opened ControlReturn
  import opened Transaction

  // ---------------------------------------------------------------- who asks for a control function

  /** The control function that an event asks for. */
  function AskedFor(s: State, e: Event): set<Operation> {
    if e.CommitRequested? && s.phase == Active then {Commit}
    else if (e.RollbackRequested? || e.Close?) && s.phase == Active then {Rollback}
    else if e.CallEnded? && s.disposition == Stable then {Rollback}
    else {}
  }

  /** Control functions are counted, and begin, exactly where they are asked for. */
  lemma {:induction false} ControlsAreAskedFor(s: State, e: Event)
    requires Invariant(s) && Enabled(s, e)
    ensures Next(s, e).commits == s.commits + (if Commit in AskedFor(s, e) then 1 else 0)
    ensures Next(s, e).rollbacks == s.rollbacks + (if Rollback in AskedFor(s, e) then 1 else 0)
    ensures forall o :: o in AskedFor(s, e) ==> Next(s, e).terminal == ControlPreparing(o)
  {
    if e.CommitRequested? || e.RollbackRequested? || e.Close? || e.CallEnded? {
      RequestsAsk(s, e);
    } else {
      OthersAskNothing(s, e);
    }
  }

  lemma {:induction false} RequestsAsk(s: State, e: Event)
    requires Invariant(s) && Enabled(s, e) && (e.CommitRequested? || e.RollbackRequested? || e.Close? || e.CallEnded?)
    ensures Next(s, e).commits == s.commits + (if Commit in AskedFor(s, e) then 1 else 0)
    ensures Next(s, e).rollbacks == s.rollbacks + (if Rollback in AskedFor(s, e) then 1 else 0)
    ensures forall o :: o in AskedFor(s, e) ==> Next(s, e).terminal == ControlPreparing(o)
  {
    if e.Close? {
      CloseAsks(s);
    } else if e.CallEnded? {
      EndedCallAsks(s);
    }
  }

  lemma {:induction false} CloseAsks(s: State)
    requires Invariant(s)
    ensures AfterClose(s).commits == s.commits && AfterClose(s).rollbacks == s.rollbacks + (if s.phase == Active then 1 else 0)
    ensures s.phase == Active ==> AfterClose(s).terminal == ControlPreparing(Rollback)
  {}

  lemma {:induction false} EndedCallAsks(s: State)
    requires Invariant(s) && Enabled(s, CallEnded)
    ensures AfterCallEnded(s).commits == s.commits
    ensures AfterCallEnded(s).rollbacks == s.rollbacks + (if s.disposition == Stable then 1 else 0)
    ensures s.disposition == Stable ==> AfterCallEnded(s).terminal == ControlPreparing(Rollback)
  {}

  lemma {:induction false} OthersAskNothing(s: State, e: Event)
    requires Enabled(s, e) && !e.CommitRequested? && !e.RollbackRequested? && !e.Close? && !e.CallEnded?
    ensures Next(s, e).commits == s.commits && Next(s, e).rollbacks == s.rollbacks
  {
    if OutcomeEvent(e) {
      OutcomesAskNothing(s, e);
    }
  }

  lemma {:induction false} OutcomesAskNothing(s: State, e: Event)
    requires Enabled(s, e) && OutcomeEvent(e) && !e.CallEnded?
    ensures Next(s, e).commits == s.commits && Next(s, e).rollbacks == s.rollbacks
  {}

  lemma {:induction false} WithoutRequest(s: State, events: seq<Event>)
    requires Invariant(s) && Run(s, events) && CommitRequested !in events
    ensures After(s, events).commits == s.commits
    decreases |events|
  {
    if events != [] {
      assert events[0] in events;
      ControlsAreAskedFor(s, events[0]);
      StepKeepsInvariant(s, events[0]);
      WithoutRequest(Next(s, events[0]), events[1..]);
    }
  }

  /** Nothing is committed unless a commit was requested: neither a close nor a cancelled call commits. */
  lemma {:induction false} NoCommitWithoutRequest(start: State, events: seq<Event>)
    requires IsInitial(start) && Run(start, events) && CommitRequested !in events
    ensures After(start, events).commits == 0 && After(start, events).outcome != Committed
  {
    InitialInvariant(start);
    WithoutRequest(start, events);
    RunKeepsInvariant(start, events);
  }

  // ---------------------------------------------------------------- what the adapter sees

  /** The pinned lease is held, nothing runs on it, and so many control functions have been sent on it. */
  predicate RestsOnLease(s: State, controls: nat) {
    && s.lease.Pinned? && s.lease.id < |s.uses| && s.uses[s.lease.id].Held?
    && s.uses[s.lease.id].work == Nothing && s.uses[s.lease.id].controls == controls
  }

  lemma {:induction false} CallsStartAlone(s: State)
    requires Invariant(s) && Enabled(s, CallMade)
    ensures RestsOnLease(s, 0)
  {}

  lemma {:induction false} ControlsStartAlone(s: State)
    requires Invariant(s) && Enabled(s, ControlMade)
    ensures RestsOnLease(s, 0)
  {}

  lemma {:induction false} ResetsStartAlone(s: State)
    requires Invariant(s) && Enabled(s, ResetMade)
    ensures RestsOnLease(s, 1) && s.uses[s.lease.id].approved
  {}

  /**
   * In every run, whatever is sent on the lease is sent while nothing else runs on it: a call or a control
   * function before any control function, a reset after exactly one, and only if it was approved.
   */
  lemma {:induction false} WorkStartsAlone(s: State, e: Event)
    requires Reachable(s) && Enabled(s, e) && (e == CallMade || e == ControlMade || e == ResetMade)
    ensures RestsOnLease(s, if e == ResetMade then 1 else 0)
    ensures e == ResetMade ==> s.uses[s.lease.id].approved
  {
    ReachableInvariant(s);
    if e == CallMade {
      CallsStartAlone(s);
    } else if e == ControlMade {
      ControlsStartAlone(s);
    } else {
      ResetsStartAlone(s);
    }
  }

  /** The lease is handed over now. */
  predicate HandsOver(s: State, e: Event, i: nat)
    requires Enabled(s, e)
  {
    i < |s.uses| && i < |Next(s, e).uses| && s.uses[i].Held? && Next(s, e).uses[i].Released?
  }

  /** A lease is handed over for reuse only once a control function was approved and the reset fulfilled. */
  lemma {:induction false} ReuseIsEarned(s: State, e: Event, i: nat)
    requires Reachable(s) && Enabled(s, e) && HandsOver(s, e, i)
    ensures Next(s, e).uses[i].reusable ==>
              Next(s, e).uses[i].approved && Next(s, e).uses[i].reset && Next(s, e).uses[i].outcome in {Committed, RolledBack}
  {
    ReachableInvariant(s);
    StepKeepsInvariant(s, e);
    assert SoundUse(Next(s, e).uses[i]);
  }

  // ---------------------------------------------------------------- paths

  /** The events are possible one after another and lead to the state. */
  predicate Leads(s: State, events: seq<Event>, t: State)
    decreases |events|
  {
    if events == [] then s == t else Enabled(s, events[0]) && Leads(Next(s, events[0]), events[1..], t)
  }

  lemma {:induction false} LeadsIsRun(s: State, events: seq<Event>, t: State)
    ensures Leads(s, events, t) <==> Run(s, events) && After(s, events) == t
    decreases |events|
  {
    if events != [] && Enabled(s, events[0]) {
      LeadsIsRun(Next(s, events[0]), events[1..], t);
    }
  }

  predicate Step(s: State, e: Event, t: State) {
    Enabled(s, e) && Next(s, e) == t
  }

  lemma {:induction false} First(s: State, events: seq<Event>, m: State, t: State)
    requires events != [] && Step(s, events[0], m) && Leads(m, events[1..], t)
    ensures Leads(s, events, t)
  {}

  lemma {:induction false} Two(s: State, a: Event, m: State, b: Event, t: State)
    requires Step(s, a, m) && Step(m, b, t)
    ensures Leads(s, [a, b], t)
  {
    assert [a, b][1..] == [b] && [b][1..] == [];
  }

  lemma {:induction false} Three(s: State, a: Event, m: State, b: Event, c: Event, t: State)
    requires Step(s, a, m) && Leads(m, [b, c], t)
    ensures Leads(s, [a, b, c], t)
  {
    var events := [a, b, c];
    assert events[1..] == [b, c];
    First(s, events, m, t);
  }

  lemma {:induction false} Four(s: State, a: Event, m: State, b: Event, c: Event, d: Event, t: State)
    requires Step(s, a, m) && Leads(m, [b, c, d], t)
    ensures Leads(s, [a, b, c, d], t)
  {
    var events := [a, b, c, d];
    assert events[1..] == [b, c, d];
    First(s, events, m, t);
  }

  /** The unit of work is open, its lease is idle, and nothing is in quarantine. */
  predicate IsOpen(s: State) {
    && s.token && s.phase == Active && s.quarantine == NoQuarantine && s.call == NoCall && s.terminal == Unclaimed
    && s.disposition == Undecided && s.outcome == Underway && !s.releaseClaimed && s.lateRelease == NotStarted
    && s.lease.Pinned? && s.lease.id < |s.uses| && s.uses[s.lease.id].Held?
    && s.uses[s.lease.id].work == Nothing && s.uses[s.lease.id].controls == 0
  }

  /** That is how every active unit of work of a run is, unless a call that outlived its bound is in quarantine. */
  lemma {:induction false} ActiveIsOpen(s: State)
    requires Reachable(s) && s.phase == Active
    ensures s.quarantine == NoQuarantine ==> IsOpen(s)
    ensures s.quarantine != NoQuarantine ==> s.quarantine == Resolved && IsOpen(s.(quarantine := NoQuarantine))
  {
    ReachableInvariant(s);
  }

  function WithLease(s: State, u: Use): State {
    if s.lease.Pinned? && s.lease.id < |s.uses| then s.(uses := s.uses[s.lease.id := u]) else s
  }

  /** The use of the lease of an open unit of work. */
  function LeaseOf(s: State): Use
    requires IsOpen(s)
    ensures LeaseOf(s).Held?
  {
    s.uses[s.lease.id]
  }

  /** Handed over with this outcome, the acknowledgement outstanding. */
  function Handed(s: State, outcome: Outcome, u: Use): State {
    WithLease(s, u).(phase := Releasing, outcome := outcome, terminal := HandingOver, releaseClaimed := true)
  }

  /** Work that ends here: closed, with this outcome, its lease handed over like this. */
  function Ended(s: State, outcome: Outcome, u: Use): State {
    WithLease(s, u).(phase := Closed, outcome := outcome, lease := NoLease, terminal := Finished, releaseClaimed := true)
  }

  lemma {:induction false} HandoverEnds(s: State, outcome: Outcome, u: Use)
    ensures Step(Handed(s, outcome, u), HandoverDone, Ended(s, outcome, u))
  {}

  /** How an idle lease is evicted. */
  function Evicted(s: State, outcome: Outcome): Use
    requires IsOpen(s)
  {
    Released(false, outcome, LeaseOf(s).approved, LeaseOf(s).reset)
  }

  function OneFailureMore(s: State): State {
    s.(ambiguousFailures := s.ambiguousFailures + 1)
  }

  // ---------------------------------------------------------------- calls

  /** A call under way, perhaps while a close waits for it. */
  function Calls(s: State, closing: bool): State
    requires IsOpen(s)
  {
    WithLease(s, Held(Business, 0, LeaseOf(s).approved, LeaseOf(s).reset))
      .(phase := if closing then Closing else Calling, terminal := if closing then AwaitCall else Unclaimed, call := CallInFlight)
  }

  /** Its failure is being classified. */
  function Classifies(s: State, closing: bool): State {
    s.(phase := if closing then Closing else Calling, terminal := if closing then AwaitCall else Unclaimed, call := Classifying)
  }

  /** The call is over and the close goes on. */
  function Over(s: State, disposition: Disposition): State {
    s.(phase := Closing, terminal := AwaitCall, disposition := disposition)
  }

  lemma {:induction false} CallIsMade(s: State)
    requires IsOpen(s)
    ensures Leads(s, [Call, CallMade], Calls(s, false))
  {
    Two(s, Call, s.(phase := Calling, call := CallPreparing), CallMade, Calls(s, false));
  }

  /** A call that returns leaves the unit of work open, its lease idle as before. */
  lemma {:induction false} CallReturns(s: State)
    requires IsOpen(s)
    ensures Leads(Calls(s, false), [CallReturned], s)
  {
    assert [CallReturned][1..] == [];
  }

  lemma {:induction false} CallFails(s: State)
    requires IsOpen(s)
    ensures Step(Calls(s, false), CallFailed(SettledBadly, false), Classifies(s, false))
  {}

  /** A call whose failure the classifier calls recoverable leaves the unit of work open. */
  lemma {:induction false} RecoverableCall(s: State)
    requires IsOpen(s)
    ensures Leads(Calls(s, false), [CallFailed(SettledBadly, false), Classified(true)], s)
  {
    CallFails(s);
    Two(Calls(s, false), CallFailed(SettledBadly, false), Classifies(s, false), Classified(true), s);
  }

  lemma {:induction false} FailureIsAmbiguous(s: State)
    requires IsOpen(s)
    ensures Step(Classifies(s, false), Classified(false), Handed(OneFailureMore(s), Ambiguous, Evicted(s, Ambiguous)))
  {}

  lemma {:induction false} TimeoutIsAmbiguous(s: State)
    requires IsOpen(s)
    ensures Step(Calls(s, false), CallFailed(SettledBadly, true), Handed(OneFailureMore(s), Ambiguous, Evicted(s, Ambiguous)))
  {}

  /** Any other failure ends the work as ambiguous and evicts the lease; a timeout is not even classified. */
  lemma {:induction false} AmbiguousCallEnds(s: State)
    requires IsOpen(s)
    ensures
      var end := Ended(OneFailureMore(s), Ambiguous, Evicted(s, Ambiguous));
      && Leads(Calls(s, false), [CallFailed(SettledBadly, false), Classified(false), HandoverDone], end)
      && Leads(Calls(s, false), [CallFailed(SettledBadly, true), HandoverDone], end)
  {
    var handed := Handed(OneFailureMore(s), Ambiguous, Evicted(s, Ambiguous));
    var end := Ended(OneFailureMore(s), Ambiguous, Evicted(s, Ambiguous));
    CallFails(s);
    FailureIsAmbiguous(s);
    TimeoutIsAmbiguous(s);
    HandoverEnds(OneFailureMore(s), Ambiguous, Evicted(s, Ambiguous));
    Two(Classifies(s, false), Classified(false), handed, HandoverDone, end);
    Three(Calls(s, false), CallFailed(SettledBadly, false), Classifies(s, false), Classified(false), HandoverDone, end);
    Two(Calls(s, false), CallFailed(SettledBadly, true), handed, HandoverDone, end);
  }

  // ---------------------------------------------------------------- a close or cancel during a call

  /** The rollback that follows a call that was waited for. */
  function RollsBack(s: State): State {
    s.(phase := RollingBack, rollbacks := s.rollbacks + 1, disposition := Stable, terminal := ControlPreparing(Rollback))
  }

  lemma {:induction false} StopWaits(s: State, stop: Event)
    requires IsOpen(s) && (stop == Cancel || stop == Close)
    ensures Step(Calls(s, false), stop, Calls(s, true))
  {}

  lemma {:induction false} StableRollsBack(s: State)
    requires IsOpen(s)
    ensures Step(Over(s, Stable), CallEnded, RollsBack(s))
  {}

  /** Nothing is sent on a session of which nothing certain is known. */
  lemma {:induction false} UncertainIsEvicted(s: State)
    requires IsOpen(s)
    ensures Step(Over(s, Uncertain), CallEnded, Handed(s.(disposition := Uncertain), Ambiguous, Evicted(s, Ambiguous)))
  {}

  lemma {:induction false} StoppedCallReturns(s: State)
    requires IsOpen(s)
    ensures Step(Calls(s, true), CallReturned, Over(s, Stable))
  {}

  /** A close or a cancel during a call waits for it; a call that returns is rolled back. */
  lemma {:induction false} StoppedCallRollsBack(s: State, stop: Event)
    requires IsOpen(s) && (stop == Cancel || stop == Close)
    ensures Leads(Calls(s, false), [stop, CallReturned, CallEnded], RollsBack(s))
  {
    StopWaits(s, stop);
    StableRollsBack(s);
    StoppedCallReturns(s);
    Two(Calls(s, true), CallReturned, Over(s, Stable), CallEnded, RollsBack(s));
    Three(Calls(s, false), stop, Calls(s, true), CallReturned, CallEnded, RollsBack(s));
  }

  lemma {:induction false} StoppedFailure(s: State)
    requires IsOpen(s)
    ensures Step(Calls(s, true), CallFailed(SettledBadly, false), Over(OneFailureMore(s), Uncertain))
  {}

  /** One that fails is ambiguous. */
  lemma {:induction false} StoppedFailureEvicts(s: State, stop: Event)
    requires IsOpen(s) && (stop == Cancel || stop == Close)
    ensures Leads(Calls(s, false), [stop, CallFailed(SettledBadly, false), CallEnded, HandoverDone],
                  Ended(OneFailureMore(s).(disposition := Uncertain), Ambiguous, Evicted(s, Ambiguous)))
  {
    var t := OneFailureMore(s);
    var evicted := Evicted(s, Ambiguous);
    StopWaits(s, stop);
    StoppedFailure(s);
    UncertainIsEvicted(t);
    HandoverEnds(t.(disposition := Uncertain), Ambiguous, evicted);
    Two(Over(t, Uncertain), CallEnded, Handed(t.(disposition := Uncertain), Ambiguous, evicted), HandoverDone,
        Ended(t.(disposition := Uncertain), Ambiguous, evicted));
    Three(Calls(s, true), CallFailed(SettledBadly, false), Over(t, Uncertain), CallEnded, HandoverDone,
          Ended(t.(disposition := Uncertain), Ambiguous, evicted));
    Four(Calls(s, false), stop, Calls(s, true), CallFailed(SettledBadly, false), CallEnded, HandoverDone,
         Ended(t.(disposition := Uncertain), Ambiguous, evicted));
  }

  lemma {:induction false} CloseWhileClassifying(s: State)
    requires IsOpen(s)
    ensures Step(Classifies(s, false), Close, Classifies(s, true))
    ensures Step(Classifies(s, true), Classified(true), Over(s, Stable))
    ensures Step(Classifies(s, true), Classified(false), Over(OneFailureMore(s), Uncertain))
  {}

  /** A close while a failure is being classified: the classifier decides between rollback and eviction. */
  lemma {:induction false} CloseDuringClassification(s: State)
    requires IsOpen(s)
    ensures Leads(Classifies(s, false), [Close, Classified(true), CallEnded], RollsBack(s))
    ensures Leads(Classifies(s, false), [Close, Classified(false), CallEnded, HandoverDone],
                  Ended(OneFailureMore(s).(disposition := Uncertain), Ambiguous, Evicted(s, Ambiguous)))
  {
    var t := OneFailureMore(s);
    var evicted := Evicted(s, Ambiguous);
    CloseWhileClassifying(s);
    StableRollsBack(s);
    UncertainIsEvicted(t);
    HandoverEnds(t.(disposition := Uncertain), Ambiguous, evicted);
    Two(Classifies(s, true), Classified(true), Over(s, Stable), CallEnded, RollsBack(s));
    Three(Classifies(s, false), Close, Classifies(s, true), Classified(true), CallEnded, RollsBack(s));
    Two(Over(t, Uncertain), CallEnded, Handed(t.(disposition := Uncertain), Ambiguous, evicted), HandoverDone,
        Ended(t.(disposition := Uncertain), Ambiguous, evicted));
    Three(Classifies(s, true), Classified(false), Over(t, Uncertain), CallEnded, HandoverDone, Ended(t.(disposition := Uncertain),
          Ambiguous, evicted));
    Four(Classifies(s, false), Close, Classifies(s, true), Classified(false), CallEnded, HandoverDone,
         Ended(t.(disposition := Uncertain), Ambiguous, evicted));
  }

  // ---------------------------------------------------------------- control functions

  /** The control function is sent, or about to be. */
  function Asks(s: State, operation: Operation, terminal: Terminal): State {
    s.(phase := if operation == Commit then Committing else RollingBack, terminal := terminal,
       commits := s.commits + (if operation == Commit then 1 else 0), rollbacks := s.rollbacks + (if operation == Rollback then 1 else 0))
  }

  function Asking(s: State, operation: Operation): State
    requires IsOpen(s)
  {
    WithLease(Asks(s, operation, ControlInFlight(operation)), Held(Control, 1, LeaseOf(s).approved, LeaseOf(s).reset))
  }

  lemma {:induction false} RequestAsks(s: State, request: Event, operation: Operation)
    requires IsOpen(s)
    requires
      || (request == CommitRequested && operation == Commit)
      || (request == RollbackRequested && operation == Rollback)
      || (request == Close && operation == Rollback)
    ensures Step(s, request, Asks(s, operation, ControlPreparing(operation)))
  {}

  lemma {:induction false} ControlGoesOut(s: State, operation: Operation)
    requires IsOpen(s)
    ensures Step(Asks(s, operation, ControlPreparing(operation)), ControlMade, Asking(s, operation))
  {}

  /** A commit sends the commit function; a rollback, and a close of idle work, the rollback function. */
  lemma {:induction false} RequestIsSent(s: State, request: Event, operation: Operation)
    requires IsOpen(s)
    requires
      || (request == CommitRequested && operation == Commit)
      || (request == RollbackRequested && operation == Rollback)
      || (request == Close && operation == Rollback)
    ensures Leads(s, [request, ControlMade], Asking(s, operation))
  {
    RequestAsks(s, request, operation);
    ControlGoesOut(s, operation);
    Two(s, request, Asks(s, operation, ControlPreparing(operation)), ControlMade, Asking(s, operation));
  }

  function OutcomeOf(operation: Operation): Outcome {
    if operation == Commit then Committed else RolledBack
  }

  /** Approved, and the session is about to be reset. */
  function Resets(s: State, operation: Operation, terminal: Terminal, w: Work): State
    requires IsOpen(s)
  {
    WithLease(Asking(s, operation), Held(w, 1, true, LeaseOf(s).reset))
      .(phase := Resetting, outcome := OutcomeOf(operation), terminal := terminal)
  }

  lemma {:induction false} ApprovedResets(s: State, operation: Operation, reply: Return)
    requires IsOpen(s) && Judged(reply) == Approved
    ensures Step(Asking(s, operation), ControlReturned(reply), Resets(s, operation, ResetPreparing, Nothing))
  {
    var t := Asking(s, operation);
    var settled := WithUse(t, Settle(LeaseUse(t), true));
    assert settled == WithLease(t, Held(Nothing, 1, true, LeaseOf(s).reset));
    assert Next(t, ControlReturned(reply)) == AfterControl(settled, operation, Approved);
  }

  lemma {:induction false} ResetGoesOut(s: State, operation: Operation)
    requires IsOpen(s)
    ensures Step(Resets(s, operation, ResetPreparing, Nothing), ResetMade, Resets(s, operation, ResetInFlight, Reset))
  {}

  lemma {:induction false} ResetIsFulfilled(s: State, operation: Operation)
    requires IsOpen(s)
    ensures
      var o := OutcomeOf(operation);
      Step(Resets(s, operation, ResetInFlight, Reset), ResetFulfilled, Handed(Asking(s, operation), o, Released(true, o, true, true)))
  {
    var t := Resets(s, operation, ResetInFlight, Reset);
    var settled := WithUse(t, Settle(LeaseUse(t), true));
    assert settled == WithLease(t, Held(Nothing, 1, true, true));
    assert Next(t, ResetFulfilled) == Handing(settled, true);
  }

  lemma {:induction false} ResetFailsInFlight(s: State, operation: Operation)
    requires IsOpen(s)
    ensures
      var o := OutcomeOf(operation);
      Step(Resets(s, operation, ResetInFlight, Reset), ResetFailed(SettledBadly),
           Handed(Asking(s, operation), o, Released(false, o, true, LeaseOf(s).reset)))
  {}

  lemma {:induction false} ResetIsNotMade(s: State, operation: Operation)
    requires IsOpen(s)
    ensures
      var o := OutcomeOf(operation);
      Step(Resets(s, operation, ResetPreparing, Nothing), ResetFailed(NotMade),
           Handed(Asking(s, operation), o, Released(false, o, true, LeaseOf(s).reset)))
  {}

  lemma {:induction false} ResetIsOver(s: State, operation: Operation)
    requires IsOpen(s)
    ensures
      var o := OutcomeOf(operation);
      && Step(Resets(s, operation, ResetInFlight, Reset), ResetFulfilled, Handed(Asking(s, operation), o, Released(true, o, true, true)))
      && Step(Resets(s, operation, ResetInFlight, Reset), ResetFailed(SettledBadly),
              Handed(Asking(s, operation), o, Released(false, o, true, LeaseOf(s).reset)))
      && Step(Resets(s, operation, ResetPreparing, Nothing), ResetFailed(NotMade),
              Handed(Asking(s, operation), o, Released(false, o, true, LeaseOf(s).reset)))
  {
    ResetIsFulfilled(s, operation);
    ResetFailsInFlight(s, operation);
    ResetIsNotMade(s, operation);
  }

  /** An approved control function and a reset in time: done, and the lease may be used again. */
  lemma {:induction false} ApprovedEndsReusable(s: State, operation: Operation, reply: Return)
    requires IsOpen(s) && Judged(reply) == Approved
    ensures
      var o := OutcomeOf(operation);
      Leads(Asking(s, operation), [ControlReturned(reply), ResetMade, ResetFulfilled, HandoverDone],
            Ended(Asking(s, operation), o, Released(true, o, true, true)))
  {
    var o, t := OutcomeOf(operation), Asking(s, operation);
    ApprovedResets(s, operation, reply);
    ResetGoesOut(s, operation);
    ResetIsOver(s, operation);
    HandoverEnds(t, o, Released(true, o, true, true));
    Two(Resets(s, operation, ResetInFlight, Reset), ResetFulfilled, Handed(t, o, Released(true, o, true, true)), HandoverDone,
        Ended(t, o, Released(true, o, true, true)));
    Three(Resets(s, operation, ResetPreparing, Nothing), ResetMade, Resets(s, operation, ResetInFlight, Reset), ResetFulfilled,
          HandoverDone, Ended(t, o, Released(true, o, true, true)));
    Four(t, ControlReturned(reply), Resets(s, operation, ResetPreparing, Nothing), ResetMade, ResetFulfilled, HandoverDone, Ended(t,
         o, Released(true, o, true, true)));
  }

  /** With a failed reset the outcome stands and the lease is evicted. */
  lemma {:induction false} FailedResetEvicts(s: State, operation: Operation, reply: Return)
    requires IsOpen(s) && Judged(reply) == Approved
    ensures
      var o := OutcomeOf(operation);
      var end := Ended(Asking(s, operation), o, Released(false, o, true, LeaseOf(s).reset));
      && Leads(Asking(s, operation), [ControlReturned(reply), ResetMade, ResetFailed(SettledBadly), HandoverDone], end)
      && Leads(Asking(s, operation), [ControlReturned(reply), ResetFailed(NotMade), HandoverDone], end)
  {
    var o, t := OutcomeOf(operation), Asking(s, operation);
    var u := Released(false, o, true, LeaseOf(s).reset);
    ApprovedResets(s, operation, reply);
    ResetGoesOut(s, operation);
    ResetIsOver(s, operation);
    HandoverEnds(t, o, u);
    Two(Resets(s, operation, ResetInFlight, Reset), ResetFailed(SettledBadly), Handed(t, o, u), HandoverDone, Ended(t, o, u));
    Three(Resets(s, operation, ResetPreparing, Nothing), ResetMade, Resets(s, operation, ResetInFlight, Reset),
          ResetFailed(SettledBadly), HandoverDone, Ended(t, o, u));
    Four(t, ControlReturned(reply), Resets(s, operation, ResetPreparing, Nothing), ResetMade, ResetFailed(SettledBadly), HandoverDone,
         Ended(t, o, u));
    Two(Resets(s, operation, ResetPreparing, Nothing), ResetFailed(NotMade), Handed(t, o, u), HandoverDone, Ended(t, o, u));
    Three(t, ControlReturned(reply), Resets(s, operation, ResetPreparing, Nothing), ResetFailed(NotMade), HandoverDone, Ended(t, o, u));
  }

  /** Without an approval: rejected after a refusal, ambiguous with one failure more after anything else. */
  function Unapproved(s: State, operation: Operation, refused: bool): State
    requires IsOpen(s)
  {
    if refused then Asking(s, operation) else OneFailureMore(Asking(s, operation))
  }

  function UnapprovedOutcome(refused: bool): Outcome {
    if refused then Rejected else Ambiguous
  }

  lemma {:induction false} RefusedReplyIsHanded(s: State, operation: Operation, reply: Return)
    requires IsOpen(s) && Judged(reply).Refused?
    ensures Step(Asking(s, operation), ControlReturned(reply), Handed(Asking(s, operation), Rejected, Evicted(s, Rejected)))
  {}

  lemma {:induction false} BadReplyIsHanded(s: State, operation: Operation, reply: Return)
    requires IsOpen(s) && !Judged(reply).Refused? && !Judged(reply).Approved?
    ensures Step(Asking(s, operation), ControlReturned(reply), Handed(OneFailureMore(Asking(s, operation)), Ambiguous, Evicted(s, Ambiguous)))
  {}

  lemma {:induction false} RefusalIsHanded(s: State, operation: Operation)
    requires IsOpen(s)
    ensures Step(Asking(s, operation), ControlFailed(SettledBadly, true), Handed(Asking(s, operation), Rejected, Evicted(s, Rejected)))
  {}

  lemma {:induction false} FailureIsHanded(s: State, operation: Operation)
    requires IsOpen(s)
    ensures Step(Asking(s, operation), ControlFailed(SettledBadly, false),
                 Handed(OneFailureMore(Asking(s, operation)), Ambiguous, Evicted(s, Ambiguous)))
  {}

  /** A refused control function rejects the work, an unusable reply makes it ambiguous; the lease is evicted. */
  lemma {:induction false} UnapprovedEvicts(s: State, operation: Operation, reply: Return)
    requires IsOpen(s) && Judged(reply) != Approved
    ensures
      var refused := Judged(reply).Refused?;
      var o := UnapprovedOutcome(refused);
      Leads(Asking(s, operation), [ControlReturned(reply), HandoverDone], Ended(Unapproved(s, operation, refused), o, Evicted(s, o)))
  {
    var refused := Judged(reply).Refused?;
    var o := UnapprovedOutcome(refused);
    var t := Unapproved(s, operation, refused);
    if refused {
      RefusedReplyIsHanded(s, operation, reply);
    } else {
      BadReplyIsHanded(s, operation, reply);
    }
    HandoverEnds(t, o, Evicted(s, o));
    Two(Asking(s, operation), ControlReturned(reply), Handed(t, o, Evicted(s, o)), HandoverDone, Ended(t, o, Evicted(s, o)));
  }

  /** So does a control call that fails, as a refusal or otherwise. */
  lemma {:induction false} FailedControlEvicts(s: State, operation: Operation, refused: bool)
    requires IsOpen(s)
    ensures
      var o := UnapprovedOutcome(refused);
      Leads(Asking(s, operation), [ControlFailed(SettledBadly, refused), HandoverDone],
            Ended(Unapproved(s, operation, refused), o, Evicted(s, o)))
  {
    var o := UnapprovedOutcome(refused);
    var t := Unapproved(s, operation, refused);
    RefusalIsHanded(s, operation);
    FailureIsHanded(s, operation);
    HandoverEnds(t, o, Evicted(s, o));
    Two(Asking(s, operation), ControlFailed(SettledBadly, refused), Handed(t, o, Evicted(s, o)), HandoverDone,
        Ended(t, o, Evicted(s, o)));
  }

  // ---------------------------------------------------------------- a control call that outlives its bound

  /** Ambiguous, and waiting for the call in quarantine to settle. */
  function Waits(s: State, operation: Operation, q: Quarantine): State
    requires IsOpen(s)
  {
    var t := Asking(s, operation);
    var settled := WithLease(t, Held(if q == Pending then Control else Nothing, 1, LeaseOf(s).approved, LeaseOf(s).reset));
    OneFailureMore(settled).(outcome := Ambiguous, quarantine := q, terminal := AwaitQuarantine(false))
  }

  lemma {:induction false} OutlivedIsAmbiguous(s: State, operation: Operation)
    requires IsOpen(s)
    ensures Step(Asking(s, operation), ControlFailed(Outlived, false), Waits(s, operation, Pending))
  {}

  lemma {:induction false} WaitSettles(s: State, operation: Operation)
    requires IsOpen(s)
    ensures Step(Waits(s, operation, Pending), QuarantineSettled, Waits(s, operation, Resolved))
  {}

  lemma {:induction false} WaitConverges(s: State, operation: Operation)
    requires IsOpen(s)
    ensures Step(Waits(s, operation, Resolved), QuarantineConverged, Handed(Unapproved(s, operation, false), Ambiguous, Evicted(s, Ambiguous)))
  {}

  /** The lease stays with the call until it has settled. */
  lemma {:induction false} OutlivedControlIsAwaited(s: State, operation: Operation)
    requires IsOpen(s)
    ensures Leads(Asking(s, operation), [ControlFailed(Outlived, false), QuarantineSettled, QuarantineConverged, HandoverDone],
                  Ended(Unapproved(s, operation, false), Ambiguous, Evicted(s, Ambiguous)))
  {
    var t := Unapproved(s, operation, false);
    OutlivedIsAmbiguous(s, operation);
    WaitSettles(s, operation);
    WaitConverges(s, operation);
    HandoverEnds(t, Ambiguous, Evicted(s, Ambiguous));
    Two(Waits(s, operation, Resolved), QuarantineConverged, Handed(t, Ambiguous, Evicted(s, Ambiguous)), HandoverDone, Ended(t,
        Ambiguous, Evicted(s, Ambiguous)));
    Three(Waits(s, operation, Pending), QuarantineSettled, Waits(s, operation, Resolved), QuarantineConverged, HandoverDone, Ended(t,
          Ambiguous, Evicted(s, Ambiguous)));
    Four(Asking(s, operation), ControlFailed(Outlived, false), Waits(s, operation, Pending), QuarantineSettled, QuarantineConverged,
         HandoverDone, Ended(t, Ambiguous, Evicted(s, Ambiguous)));
  }

  /** Given up: the runtime has failed and a late release is left behind. */
  function GivenUp(s: State, operation: Operation, q: Quarantine): State
    requires IsOpen(s)
  {
    Waits(s, operation, q).(phase := Failed, terminal := Finished, lateRelease := Waiting)
  }

  /** The late release, its acknowledgement outstanding. */
  function LateHanded(s: State, operation: Operation): State
    requires IsOpen(s)
  {
    Handed(Unapproved(s, operation, false), Ambiguous, Evicted(s, Ambiguous)).(terminal := Finished, lateRelease := LateHandover)
  }

  lemma {:induction false} WaitIsGivenUp(s: State, operation: Operation)
    requires IsOpen(s)
    ensures Step(Waits(s, operation, Pending), QuarantineOutlived, GivenUp(s, operation, Pending))
  {}

  lemma {:induction false} GivenUpSettles(s: State, operation: Operation)
    requires IsOpen(s)
    ensures Step(GivenUp(s, operation, Pending), QuarantineSettled, GivenUp(s, operation, Resolved))
  {}

  lemma {:induction false} GivenUpIsReleasedLate(s: State, operation: Operation)
    requires IsOpen(s)
    ensures Step(GivenUp(s, operation, Resolved), LateReleaseStarts, LateHanded(s, operation))
  {}

  lemma {:induction false} LateReleaseEnds(s: State, operation: Operation)
    requires IsOpen(s)
    ensures Step(LateHanded(s, operation), LateReleaseDone,
                 Ended(Unapproved(s, operation, false), Ambiguous, Evicted(s, Ambiguous)).(lateRelease := LateFinished))
  {}

  /** Beyond the wait it is released late, and closed only then. */
  lemma {:induction false} OutlivedControlIsReleasedLate(s: State, operation: Operation)
    requires IsOpen(s)
    ensures Leads(Waits(s, operation, Pending), [QuarantineOutlived, QuarantineSettled, LateReleaseStarts, LateReleaseDone],
                  Ended(Unapproved(s, operation, false), Ambiguous, Evicted(s, Ambiguous)).(lateRelease := LateFinished))
  {
    var end := Ended(Unapproved(s, operation, false), Ambiguous, Evicted(s, Ambiguous)).(lateRelease := LateFinished);
    WaitIsGivenUp(s, operation);
    GivenUpSettles(s, operation);
    GivenUpIsReleasedLate(s, operation);
    LateReleaseEnds(s, operation);
    Two(GivenUp(s, operation, Resolved), LateReleaseStarts, LateHanded(s, operation), LateReleaseDone, end);
    Three(GivenUp(s, operation, Pending), QuarantineSettled, GivenUp(s, operation, Resolved), LateReleaseStarts, LateReleaseDone, end);
    Four(Waits(s, operation, Pending), QuarantineOutlived, GivenUp(s, operation, Pending), QuarantineSettled, LateReleaseStarts,
         LateReleaseDone, end);
  }

  // ---------------------------------------------------------------- begin and close

  predicate IsIdle(s: State) {
    && s.phase == Idle && s.terminal == Unclaimed && !s.token && s.lease == NoLease && s.lateAcquires == 0 && s.lateEvictions == 0
    && s.opening == NotOpening && s.outcome == NoOutcome && !s.acquireFailure
  }

  lemma {:induction false} IdleIsIdle(s: State)
    requires Reachable(s) && s.phase == Idle
    ensures IsIdle(s.(acquireFailure := false))
  {
    ReachableInvariant(s);
  }

  function Begun(s: State): State {
    s.(phase := Opening, opening := Acquiring)
  }

  function AlsoEvicted(s: State): State {
    s.(uses := s.uses + [Released(false, NoOutcome, false, false)])
  }

  lemma {:induction false} BeginBegins(s: State)
    requires IsIdle(s.(acquireFailure := false))
    ensures Step(s, Begin, Begun(s.(acquireFailure := false)))
  {}

  /** A lease in time opens the unit of work; without one the runtime is idle again. */
  lemma {:induction false} BeginOpensOrNot(s: State)
    requires IsIdle(s)
    ensures
      Step(Begun(s), AcquireFulfilled,
           s.(phase := Active, outcome := Underway, token := true, lease := Pinned(|s.uses|), uses := s.uses + [FRESH_USE]))
    ensures Step(Begun(s), AcquireFailed(false), s)
  {}

  function LateBegun(s: State): State {
    s.(phase := Failed, lateAcquires := 1)
  }

  lemma {:induction false} LateSteps(s: State)
    requires IsIdle(s)
    ensures Step(Begun(s), AcquireFailed(true), LateBegun(s))
    ensures Step(LateBegun(s), LateAcquireFailed, s)
    ensures Step(LateBegun(s), LateAcquireFulfilled, AlsoEvicted(s).(phase := Failed, lateEvictions := 1))
    ensures Step(AlsoEvicted(s).(phase := Failed, lateEvictions := 1), LateEvictionDone(true), AlsoEvicted(s))
    ensures Step(AlsoEvicted(s).(phase := Failed, lateEvictions := 1), LateEvictionDone(false),
                 AlsoEvicted(s).(phase := Failed, acquireFailure := true))
  {}

  /** A lease that comes too late is evicted, and the runtime is idle again once that is done. */
  lemma {:induction false} LateLeaseIsEvicted(s: State)
    requires IsIdle(s)
    ensures Leads(Begun(s), [AcquireFailed(true), LateAcquireFulfilled, LateEvictionDone(true)], AlsoEvicted(s))
    ensures Leads(Begun(s), [AcquireFailed(true), LateAcquireFailed], s)
  {
    LateSteps(s);
    Two(Begun(s), AcquireFailed(true), LateBegun(s), LateAcquireFailed, s);
    Two(LateBegun(s), LateAcquireFulfilled, AlsoEvicted(s).(phase := Failed, lateEvictions := 1), LateEvictionDone(true), AlsoEvicted(s));
    Three(Begun(s), AcquireFailed(true), LateBegun(s), LateAcquireFulfilled, LateEvictionDone(true), AlsoEvicted(s));
  }

  function ClosedIdle(s: State): State {
    s.(phase := Closed, terminal := Finished)
  }

  function Closes(s: State, terminal: Terminal): State {
    s.(phase := Closing, terminal := terminal)
  }

  lemma {:induction false} ClosingSteps(s: State, ok: bool)
    requires IsIdle(s)
    ensures Step(s, Close, ClosedIdle(s))
    ensures Step(Begun(s), Close, Closes(Begun(s), AwaitOpening))
    ensures Step(Closes(Begun(s), AwaitOpening), AcquireFailed(false), Closes(s, AwaitOpening))
    ensures Step(Closes(s, AwaitOpening), OpeningEnded, ClosedIdle(s))
    ensures Step(Closes(Begun(s), AwaitOpening), AcquireFulfilled, Closes(AlsoEvicted(s), AwaitOpening).(opening := Evicting))
    ensures Step(Closes(AlsoEvicted(s), AwaitOpening).(opening := Evicting), BeginEvictionDone(ok),
                 Closes(AlsoEvicted(s), AwaitOpening).(acquireFailure := !ok))
    ensures Step(Closes(AlsoEvicted(s), AwaitOpening).(acquireFailure := !ok), OpeningEnded,
                 AlsoEvicted(s).(phase := if ok then Closed else Failed, terminal := Finished, acquireFailure := !ok))
  {}

  /** A close of an idle runtime is immediate; during begin() it waits, and a lease that still comes is evicted. */
  lemma {:induction false} CloseBeforeOpen(s: State, ok: bool)
    requires IsIdle(s)
    ensures Step(s, Close, ClosedIdle(s))
    ensures Leads(Begun(s), [Close, AcquireFailed(false), OpeningEnded], ClosedIdle(s))
    ensures Leads(Begun(s), [Close, AcquireFulfilled, BeginEvictionDone(ok), OpeningEnded],
                  AlsoEvicted(s).(phase := if ok then Closed else Failed, terminal := Finished, acquireFailure := !ok))
  {
    ClosingSteps(s, ok);
    Two(Closes(Begun(s), AwaitOpening), AcquireFailed(false), Closes(s, AwaitOpening), OpeningEnded, ClosedIdle(s));
    Three(Begun(s), Close, Closes(Begun(s), AwaitOpening), AcquireFailed(false), OpeningEnded, ClosedIdle(s));
    Two(Closes(AlsoEvicted(s), AwaitOpening).(opening := Evicting), BeginEvictionDone(ok),
        Closes(AlsoEvicted(s), AwaitOpening).(acquireFailure := !ok), OpeningEnded,
        AlsoEvicted(s).(phase := if ok then Closed else Failed, terminal := Finished, acquireFailure := !ok));
    Three(Closes(Begun(s), AwaitOpening), AcquireFulfilled, Closes(AlsoEvicted(s), AwaitOpening).(opening := Evicting),
          BeginEvictionDone(ok), OpeningEnded, AlsoEvicted(s).(phase := if ok then Closed else Failed, terminal := Finished, acquireFailure := !ok));
    Four(Begun(s), Close, Closes(Begun(s), AwaitOpening), AcquireFulfilled, BeginEvictionDone(ok), OpeningEnded,
         AlsoEvicted(s).(phase := if ok then Closed else Failed, terminal := Finished, acquireFailure := !ok));
  }

  lemma {:induction false} LateClosingSteps(s: State)
    requires IsIdle(s)
    ensures Step(LateBegun(s), Close, Closes(LateBegun(s), AwaitOpening))
    ensures Step(Closes(LateBegun(s), AwaitOpening), OpeningEnded, Closes(LateBegun(s), AwaitAcquires))
    ensures Step(Closes(LateBegun(s), AwaitAcquires), LateAcquireFailed, Closes(s, AwaitAcquires))
    ensures Step(Closes(s, AwaitAcquires), AcquiresSettled, ClosedIdle(s))
    ensures Step(Closes(LateBegun(s), AwaitAcquires), AcquiresOutlived, LateBegun(s).(terminal := Finished))
    ensures Step(LateBegun(s).(terminal := Finished), LateAcquireFailed, ClosedIdle(s))
  {}

  /** A close with a late acquire outstanding waits for it, but not beyond its bound. */
  lemma {:induction false} CloseAwaitsLateAcquire(s: State)
    requires IsIdle(s)
    ensures Leads(LateBegun(s), [Close, OpeningEnded, LateAcquireFailed, AcquiresSettled], ClosedIdle(s))
    ensures Leads(LateBegun(s), [Close, OpeningEnded, AcquiresOutlived, LateAcquireFailed], ClosedIdle(s))
  {
    LateClosingSteps(s);
    Two(Closes(LateBegun(s), AwaitAcquires), LateAcquireFailed, Closes(s, AwaitAcquires), AcquiresSettled, ClosedIdle(s));
    Three(Closes(LateBegun(s), AwaitOpening), OpeningEnded, Closes(LateBegun(s), AwaitAcquires), LateAcquireFailed, AcquiresSettled,
          ClosedIdle(s));
    Four(LateBegun(s), Close, Closes(LateBegun(s), AwaitOpening), OpeningEnded, LateAcquireFailed, AcquiresSettled, ClosedIdle(s));
    Two(Closes(LateBegun(s), AwaitAcquires), AcquiresOutlived, LateBegun(s).(terminal := Finished), LateAcquireFailed, ClosedIdle(s));
    Three(Closes(LateBegun(s), AwaitOpening), OpeningEnded, Closes(LateBegun(s), AwaitAcquires), AcquiresOutlived, LateAcquireFailed,
          ClosedIdle(s));
    Four(LateBegun(s), Close, Closes(LateBegun(s), AwaitOpening), OpeningEnded, AcquiresOutlived, LateAcquireFailed, ClosedIdle(s));
  }
}
