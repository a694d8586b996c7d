/**
 * Retirement of the session contexts can always finish: whatever is under way, there is a way on
 * to the retired runtime, and a runtime without scheduler faults has then released every lease.
 */
module SessionContextProgress {
  import opened SessionContext
  import opened SessionContextReleases
  import opened Totals

  function StageWeight(stage: Stage): nat {
    match stage
    case Live | ResetPreparing => 6
    case ResetInFlight | AwaitOperation => 5
    case ReleasePreparing(_) => 4
    case ReleaseInFlight => 3
    case Notifying => 1
    case Gone => 0
  }

  function EntryWeight(e: Entry): nat {
    StageWeight(e.stage) + Indicator(e.active)
  }

  function OpeningWeight(o: Opening): nat {
    match o
    case Acquiring => 8
    case Checking(_) => 7
    case RollingBack(stage, _) => 1 + StageWeight(stage)
    case Done(_) => 0
  }

  function LateWeight(l: LateLease): nat {
    StageWeight(l.stage)
  }

  /** What is still to be done before the retirement can complete. */
  function Work(s: State): nat {
    Total(s.entries, EntryWeight) + Total(s.openings, OpeningWeight) + Total(s.lateLeases, LateWeight)
  }

  /** A step without a fault that leaves less to do. */
  ghost predicate Closer(s: State, e: Event) {
    && Enabled(s, e) && Next(s, e).phase == s.phase && Next(s, e).schedulerFaults == s.schedulerFaults
    && Work(Next(s, e)) < Work(s)
  }

  lemma {:induction false} EntryIsCloser(s: State, i: nat, e: Entry, m: Monitor)
    requires i < |s.entries| && EntryWeight(e) < EntryWeight(s.entries[i])
    ensures Work(WithEntry(s, i, e, m)) < Work(s)
  {
    TotalUpdate(s.entries, EntryWeight, i, e);
  }

  lemma {:induction false} OpeningIsCloser(s: State, k: nat, o: Opening, m: Monitor)
    requires k < |s.openings| && OpeningWeight(o) < OpeningWeight(s.openings[k])
    ensures Work(WithOpening(s, k, o).(monitor := m)) < Work(s)
  {
    TotalUpdate(s.openings, OpeningWeight, k, o);
  }

  function OpeningStep(o: Opening, k: nat): Event {
    match o
    case Checking(_) => LeaseChecked(k, false)
    case RollingBack(stage, _) => if stage == ReleaseInFlight then RollbackEnded(k) else RollbackCalled(k)
    case _ => AcquireFailed(k, false)
  }

  /** A begin() under way fails or is rolled back. */
  lemma {:induction false} OpeningGoesOn(s: State, k: nat)
    requires Invariant(s) && s.phase == Retiring && k < |s.openings| && !s.openings[k].Done?
    ensures Closer(s, OpeningStep(s.openings[k], k))
  {
    assert OpeningUse(s.openings[k], s.schedulerFaults);
    var after := Next(s, OpeningStep(s.openings[k], k));
    OpeningIsCloser(s, k, after.openings[k], after.monitor);
  }

  /** The next step of a context's cleanup; a reset that has not been called fails before the call. */
  function CleanupStep(e: Entry, i: nat): Event {
    match e.stage
    case AwaitOperation => OperationAwaited(i)
    case ReleasePreparing(_) => ReleaseCalled(i)
    case ReleaseInFlight => ReleaseEnded(i)
    case Notifying => OwnerNotified(i)
    case _ => ResetEnded(i, false)
  }

  lemma {:induction false} CleanupGoesOn(s: State, i: nat)
    requires i < |s.entries| && s.entries[i].stage != Gone
    requires EntryInvariant(s.entries[i]) && s.entries[i].state != Ready && !s.entries[i].active
    ensures Enabled(s, CleanupStep(s.entries[i], i))
    ensures
      var after := Next(s, CleanupStep(s.entries[i], i));
      && |after.entries| == |s.entries| && EntryWeight(after.entries[i]) < EntryWeight(s.entries[i])
      && after == WithEntry(s, i, after.entries[i], after.monitor)
  {}

  /** A context goes on with its cleanup once its operation is over. */
  lemma {:induction false} EntryGoesOn(s: State, i: nat) returns (e: Event)
    requires Invariant(s) && s.phase == Retiring && i < |s.entries| && s.entries[i].stage != Gone
    ensures Closer(s, e)
  {
    assert EntryInvariant(s.entries[i]) && s.entries[i].state != Ready;
    if s.entries[i].active {
      e := OperationEnded(i, false);
    } else {
      e := CleanupStep(s.entries[i], i);
      CleanupGoesOn(s, i);
    }
    EntryIsCloser(s, i, Next(s, e).entries[i], Next(s, e).monitor);
  }

  lemma {:induction false} LateGoesOn(s: State, j: nat) returns (e: Event)
    requires Invariant(s) && j < |s.lateLeases| && s.lateLeases[j].stage != Gone
    ensures Closer(s, e)
  {
    assert LateInvariant(s.lateLeases[j]);
    e := if s.lateLeases[j].stage == ReleaseInFlight then LateReleaseEnded(j) else LateReleaseCalled(j);
    TotalUpdate(s.lateLeases, LateWeight, j, Next(s, e).lateLeases[j]);
  }

  lemma {:induction false} RetiringGoesOn(s: State) returns (e: Event)
    requires Invariant(s) && s.phase == Retiring && !Converged(s)
    ensures Closer(s, e)
  {
    if k: nat :| k < |s.openings| && !s.openings[k].Done? {
      OpeningGoesOn(s, k);
      e := OpeningStep(s.openings[k], k);
    } else if i: nat :| i < |s.entries| && s.entries[i].stage != Gone {
      e := EntryGoesOn(s, i);
    } else {
      var j: nat :| j < |s.lateLeases| && s.lateLeases[j].stage != Gone;
      e := LateGoesOn(s, j);
    }
  }

  lemma {:induction false} RetiringFinishes(s: State) returns (events: seq<Event>)
    requires Invariant(s) && s.phase == Retiring
    ensures RunOf(s, events) && After(s, events).phase == Retired && After(s, events).schedulerFaults == s.schedulerFaults
    decreases Work(s)
  {
    if Converged(s) {
      OneStep(s, RetirementCompletes, []);
      events := [RetirementCompletes];
    } else {
      var e := RetiringGoesOn(s);
      StepKeepsInvariant(s, e);
      var rest := RetiringFinishes(Next(s, e));
      OneStep(s, e, rest);
      events := [e] + rest;
    }
  }

  /**
   * However a run went so far, the runtime can still be retired without a further scheduler fault,
   * and without any fault it has then released every lease.
   */
  lemma {:induction false} RetirementCanFinish(s: State) returns (events: seq<Event>)
    requires Reachable(s)
    ensures RunOf(s, events) && After(s, events).phase == Retired && After(s, events).schedulerFaults == s.schedulerFaults
    ensures AllReleased(After(s, events)) <==> s.schedulerFaults == 0
  {
    ReachableInvariant(s);
    if s.phase == Open {
      StepKeepsInvariant(s, Retire);
      var rest := RetiringFinishes(Next(s, Retire));
      OneStep(s, Retire, rest);
      events := [Retire] + rest;
    } else if s.phase == Retiring {
      events := RetiringFinishes(s);
    } else {
      events := [];
    }
    var start, before :| RunTo(start, before, s);
    RunsJoin(start, before, events);
    assert RunTo(start, before + events, After(s, events));
    RetiredReleasedExactlyOnce(After(s, events));
  }
}
