/**
 * A business call can outlive its bound and settle before its failure is classified. If the
 * classifier then calls it recoverable, the unit of work goes on with the settled work still in
 * quarantine, up to a commit and a reusable hand-over after the wait.
 */
module LateCalls {
  import opened ControlReturn
  import opened Transaction
  import opened TransactionPaths

  lemma {:induction false} OneMore(start: State, events: seq<Event>, s: State, e: Event)
    requires Leads(start, events, s) && Enabled(s, e)
    ensures Leads(start, events + [e], Next(s, e))
    decreases |events|
  {
    if events == [] {
      assert ([] + [e])[1..] == [];
    } else {
      OneMore(Next(start, events[0]), events[1..], s, e);
      assert (events + [e])[1..] == events[1..] + [e];
    }
  }

  /** The unit of work is active again, with the call that outlived its bound settled but not cleared. */
  predicate GoesOn(s: State) {
    && s.token && s.phase == Active && s.outcome == Underway && s.lease == Pinned(0) && s.uses == [FRESH_USE]
    && s.call == NoCall && s.terminal == Unclaimed && s.quarantine == Resolved && !s.releaseClaimed
    && Controls(s) == 0 && s.lateRelease == NotStarted
  }

  lemma {:induction false} SettledCallCanBeRecovered(start: State) returns (events: seq<Event>, s: State)
    requires IsInitial(start)
    ensures Leads(start, events, s) && GoesOn(s)
  {
    var late, first := CallSettlesLate(start);
    s := Next(late, Classified(true));
    OneMore(start, first, late, Classified(true));
    events := first + [Classified(true)];
  }

  lemma {:induction false} CallSettlesLate(start: State) returns (s: State, events: seq<Event>)
    requires IsInitial(start)
    ensures Leads(start, events, s) && Enabled(s, Classified(true)) && GoesOn(Next(s, Classified(true)))
  {
    var calling, first := CallUnderWay(start);
    var outlived := Next(calling, CallFailed(Outlived, false));
    OneMore(start, first, calling, CallFailed(Outlived, false));
    s := Next(outlived, QuarantineSettled);
    OneMore(start, first + [CallFailed(Outlived, false)], outlived, QuarantineSettled);
    events := first + [CallFailed(Outlived, false)] + [QuarantineSettled];
  }

  lemma {:induction false} LeaseTaken(start: State) returns (s: State, events: seq<Event>)
    requires IsInitial(start)
    ensures Leads(start, events, s)
    ensures s == start.(phase := Active, outcome := Underway, token := true, lease := Pinned(0), uses := [FRESH_USE])
  {
    var s1 := Next(start, Begin);
    OneMore(start, [], start, Begin);
    s := Next(s1, AcquireFulfilled);
    OneMore(start, [] + [Begin], s1, AcquireFulfilled);
    events := [] + [Begin] + [AcquireFulfilled];
  }

  lemma {:induction false} CallUnderWay(start: State) returns (s: State, events: seq<Event>)
    requires IsInitial(start)
    ensures Leads(start, events, s)
    ensures s == start.(phase := Calling, outcome := Underway, token := true, lease := Pinned(0), call := CallInFlight,
                       uses := [Held(Business, 0, false, false)])
  {
    var s2, first := LeaseTaken(start);
    var s3 := Next(s2, Call);
    OneMore(start, first, s2, Call);
    s := Next(s3, CallMade);
    OneMore(start, first + [Call], s3, CallMade);
    events := first + [Call] + [CallMade];
  }

  /** A reply whose RETURN has a blank type. */
  function Blank(): Return {
    Single(Row(Text(""), Absent, Absent, Absent))
  }

  lemma {:induction false} BlankIsApproved()
    ensures Judged(Blank()) == Approved
  {
    assert TypeOf("") == "";
    assert Rows(Blank())[..0] == [];
  }

  /** Committed and reset, waiting for the quarantine that has long settled. */
  predicate WaitsToHandOver(s: State) {
    && s.lease == Pinned(0) && s.uses == [Held(Nothing, 1, true, true)] && s.outcome == Committed && !s.releaseClaimed
    && s.terminal == AwaitQuarantine(true) && s.quarantine == Resolved
  }

  /** Committed, and about to reset. */
  predicate ResetsNext(s: State) {
    && s.lease == Pinned(0) && s.uses == [Held(Nothing, 1, true, false)] && s.outcome == Committed && !s.releaseClaimed
    && s.terminal == ResetPreparing && s.quarantine == Resolved
  }

  /** The commit function is out. */
  predicate Commits(s: State) {
    && s.lease == Pinned(0) && s.uses == [Held(Control, 1, false, false)] && s.outcome == Underway && !s.releaseClaimed
    && s.terminal == ControlInFlight(Commit) && s.quarantine == Resolved
  }

  lemma {:induction false} CanCommit(start: State) returns (events: seq<Event>, s: State)
    requires GoesOn(start)
    ensures Leads(start, events, s) && Commits(s)
  {
    var s1 := Next(start, CommitRequested);
    OneMore(start, [], start, CommitRequested);
    s := Next(s1, ControlMade);
    OneMore(start, [] + [CommitRequested], s1, ControlMade);
    events := [] + [CommitRequested] + [ControlMade];
  }

  lemma {:induction false} CanBeApproved(start: State, reply: Return) returns (events: seq<Event>, s: State)
    requires Commits(start) && Judged(reply) == Approved
    ensures Leads(start, events, s) && ResetsNext(s)
  {
    OneMore(start, [], start, ControlReturned(reply));
    s := Next(start, ControlReturned(reply));
    events := [] + [ControlReturned(reply)];
  }

  lemma {:induction false} CanReset(start: State) returns (events: seq<Event>, s: State)
    requires ResetsNext(start)
    ensures Leads(start, events, s) && WaitsToHandOver(s)
  {
    var s1 := Next(start, ResetMade);
    OneMore(start, [], start, ResetMade);
    s := Next(s1, ResetFulfilled);
    OneMore(start, [] + [ResetMade], s1, ResetFulfilled);
    events := [] + [ResetMade] + [ResetFulfilled];
  }

  lemma {:induction false} CanHandOver(start: State) returns (events: seq<Event>, s: State)
    requires WaitsToHandOver(start)
    ensures Leads(start, events, s) && s.phase == Closed && s.uses == [Released(true, Committed, true, true)]
  {
    var s1 := Next(start, QuarantineConverged);
    OneMore(start, [], start, QuarantineConverged);
    s := Next(s1, HandoverDone);
    OneMore(start, [] + [QuarantineConverged], s1, HandoverDone);
    events := [] + [QuarantineConverged] + [HandoverDone];
  }

  lemma {:induction false} Joined(start: State, first: seq<Event>, s: State, second: seq<Event>, t: State)
    requires Leads(start, first, s) && Leads(s, second, t)
    ensures Leads(start, first + second, t)
    decreases |first|
  {
    if first == [] {
      assert first + second == second;
    } else {
      Joined(Next(start, first[0]), first[1..], s, second, t);
      assert (first + second)[1..] == first[1..] + second;
    }
  }

  /** Such a unit of work can be committed, and its one lease handed over as reusable. */
  lemma {:induction false} RecoveredCallCanCommit(start: State) returns (events: seq<Event>, s: State)
    requires IsInitial(start)
    ensures Run(start, events) && After(start, events) == s
    ensures s.phase == Closed && s.uses == [Released(true, Committed, true, true)]
  {
    BlankIsApproved();
    var first, active := SettledCallCanBeRecovered(start);
    var second, committing := CanCommit(active);
    var third, committed := CanBeApproved(committing, Blank());
    var fourth, waiting := CanReset(committed);
    var fifth, closed := CanHandOver(waiting);
    Joined(start, first, active, second, committing);
    Joined(start, first + second, committing, third, committed);
    Joined(start, first + second + third, committed, fourth, waiting);
    Joined(start, first + second + third + fourth, waiting, fifth, closed);
    events, s := first + second + third + fourth + fifth, closed;
    LeadsIsRun(start, events, s);
  }
}
