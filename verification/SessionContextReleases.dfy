/**
 * Which leases of a session-context runtime are released exactly once. A lease is lost when the
 * scheduler fails just before its release call: of a context, of a begin() that is rolled back,
 * or of an acquire that came late. The lost leases are exactly the scheduler's faults.
 */
module SessionContextReleases {
  import opened SessionContext

  // ---------------------------------------------------------------- counting lost leases

  function LostEntries(entries: seq<Entry>): nat {
    if entries == [] then 0 else LostEntries(entries[..|entries| - 1]) + Indicator(entries[|entries| - 1].use.Abandoned?)
  }

  predicate LostOpening(o: Opening) {
    o.Done? && o.use.Abandoned?
  }

  function LostOpenings(openings: seq<Opening>): nat {
    if openings == [] then 0 else LostOpenings(openings[..|openings| - 1]) + Indicator(LostOpening(openings[|openings| - 1]))
  }

  function LostLate(late: seq<LateLease>): nat {
    if late == [] then 0 else LostLate(late[..|late| - 1]) + Indicator(late[|late| - 1].use.Abandoned?)
  }

  function Lost(s: State): nat {
    LostEntries(s.entries) + LostOpenings(s.openings) + LostLate(s.lateLeases)
  }

  lemma {:induction false} EntryUpdated(entries: seq<Entry>, i: nat, e: Entry)
    requires i < |entries|
    ensures LostEntries(entries[i := e]) == LostEntries(entries) - Indicator(entries[i].use.Abandoned?) + Indicator(e.use.Abandoned?)
  {
    var n := |entries| - 1;
    if i < n {
      EntryUpdated(entries[..n], i, e);
      assert entries[i := e][..n] == entries[..n][i := e];
    } else {
      assert entries[i := e][..n] == entries[..n];
    }
  }

  lemma {:induction false} OpeningUpdated(openings: seq<Opening>, k: nat, o: Opening)
    requires k < |openings|
    ensures LostOpenings(openings[k := o]) == LostOpenings(openings) - Indicator(LostOpening(openings[k])) + Indicator(LostOpening(o))
  {
    var n := |openings| - 1;
    if k < n {
      OpeningUpdated(openings[..n], k, o);
      assert openings[k := o][..n] == openings[..n][k := o];
    } else {
      assert openings[k := o][..n] == openings[..n];
    }
  }

  lemma {:induction false} LateUpdated(late: seq<LateLease>, j: nat, l: LateLease)
    requires j < |late|
    ensures LostLate(late[j := l]) == LostLate(late) - Indicator(late[j].use.Abandoned?) + Indicator(l.use.Abandoned?)
  {
    var n := |late| - 1;
    if j < n {
      LateUpdated(late[..n], j, l);
      assert late[j := l][..n] == late[..n][j := l];
    } else {
      assert late[j := l][..n] == late[..n];
    }
  }

  lemma {:induction false} ClaimingLosesNothing(entries: seq<Entry>)
    ensures LostEntries(AllClaimed(entries)) == LostEntries(entries)
  {
    if entries != [] {
      var n := |entries| - 1;
      ClaimingLosesNothing(entries[..n]);
      assert AllClaimed(entries)[..n] == AllClaimed(entries[..n]);
    }
  }

  // ---------------------------------------------------------------- every step

  predicate EntryEvent(e: Event) {
    UseEvent(e) || CleanupEvent(e) || ReleaseEvent(e)
  }

  /** Only one context changes, and it loses its lease exactly when its release is not made. */
  ghost predicate ChangesOneContext(s: State, i: nat, t: State, lost: bool) {
    && i < |s.entries| && i < |t.entries| && t.entries == s.entries[i := t.entries[i]]
    && t.openings == s.openings && t.lateLeases == s.lateLeases
    && t.schedulerFaults == s.schedulerFaults + Indicator(lost)
    && (t.entries[i].use.Abandoned? <==> s.entries[i].use.Abandoned? || lost) && !(s.entries[i].use.Abandoned? && lost)
  }

  lemma {:induction false} UseChangesOneContext(s: State, e: Event)
    requires Invariant(s) && Enabled(s, e) && UseEvent(e)
    ensures ChangesOneContext(s, e.i, Next(s, e), false)
  {
    assert EntryInvariant(s.entries[e.i]);
  }

  lemma {:induction false} CleanupChangesOneContext(s: State, e: Event)
    requires Invariant(s) && Enabled(s, e) && CleanupEvent(e)
    ensures ChangesOneContext(s, e.i, Next(s, e), false)
  {
    assert EntryInvariant(s.entries[e.i]);
  }

  lemma {:induction false} ReleaseChangesOneContext(s: State, e: Event)
    requires Invariant(s) && Enabled(s, e) && ReleaseEvent(e)
    ensures ChangesOneContext(s, e.i, Next(s, e), e.ReleaseNotMade?)
  {
    assert EntryInvariant(s.entries[e.i]);
  }

  lemma {:induction false} EntryEventChangesOneContext(s: State, e: Event)
    requires Invariant(s) && Enabled(s, e) && EntryEvent(e)
    ensures ChangesOneContext(s, e.i, Next(s, e), e.ReleaseNotMade?)
  {
    if UseEvent(e) {
      UseChangesOneContext(s, e);
    } else if CleanupEvent(e) {
      CleanupChangesOneContext(s, e);
    } else {
      ReleaseChangesOneContext(s, e);
    }
  }

  lemma {:induction false} OneContextCounts(s: State, i: nat, t: State, lost: bool)
    requires ChangesOneContext(s, i, t, lost)
    ensures Lost(t) - Lost(s) == t.schedulerFaults - s.schedulerFaults && StaysLost(s, t)
  {
    EntryUpdated(s.entries, i, t.entries[i]);
  }

  lemma {:induction false} OpeningStepCounts(s: State, e: Event)
    requires Invariant(s) && Enabled(s, e) && OpeningEvent(e)
    ensures Lost(Next(s, e)) - Lost(s) == Next(s, e).schedulerFaults - s.schedulerFaults
  {
    var k := e.k;
    var after := Next(s, e);
    assert OpeningUse(s.openings[k], s.schedulerFaults);
    assert after.openings == s.openings[k := after.openings[k]] && after.entries == s.entries && after.lateLeases == s.lateLeases;
    OpeningUpdated(s.openings, k, after.openings[k]);
  }

  lemma {:induction false} LateStepCounts(s: State, e: Event)
    requires Invariant(s) && Enabled(s, e) && LateEvent(e)
    ensures Lost(Next(s, e)) - Lost(s) == Next(s, e).schedulerFaults - s.schedulerFaults
  {
    var after := Next(s, e);
    if e.LateLeaseArrived? {
      assert after.lateLeases[..|s.lateLeases|] == s.lateLeases;
    } else if !e.LateAcquireFailed? {
      var j := e.j;
      assert LateInvariant(s.lateLeases[j]);
      LateUpdated(s.lateLeases, j, after.lateLeases[j]);
    }
  }

  lemma {:induction false} CheckedStepCounts(s: State, k: nat, usable: bool)
    requires Invariant(s) && Enabled(s, LeaseChecked(k, usable))
    ensures Lost(Next(s, LeaseChecked(k, usable))) == Lost(s)
  {
    var after := Next(s, LeaseChecked(k, usable));
    assert OpeningUse(s.openings[k], s.schedulerFaults);
    OpeningUpdated(s.openings, k, after.openings[k]);
    if |after.entries| > |s.entries| {
      assert after.entries[..|s.entries|] == s.entries;
    }
  }

  lemma {:induction false} RuntimeStepCounts(s: State, e: Event)
    requires Invariant(s) && Enabled(s, e) && (e.Begin? || e.LeaseChecked? || e.Retire? || e.RetirementCompletes?)
    ensures Lost(Next(s, e)) == Lost(s) && Next(s, e).schedulerFaults == s.schedulerFaults
  {
    match e
    case Begin =>
      if s.phase == Open {
        assert Next(s, e).openings[..|s.openings|] == s.openings;
      }
    case LeaseChecked(k, usable) => CheckedStepCounts(s, k, usable);
    case Retire => ClaimingLosesNothing(s.entries);
    case RetirementCompletes =>
  }

  lemma {:induction false} StepCounts(s: State, e: Event)
    requires Invariant(s) && Enabled(s, e)
    ensures Lost(Next(s, e)) - Lost(s) == Next(s, e).schedulerFaults - s.schedulerFaults
  {
    if EntryEvent(e) {
      EntryEventChangesOneContext(s, e);
      OneContextCounts(s, e.i, Next(s, e), e.ReleaseNotMade?);
    } else if OpeningEvent(e) {
      OpeningStepCounts(s, e);
    } else if LateEvent(e) {
      LateStepCounts(s, e);
    } else {
      RuntimeStepCounts(s, e);
    }
  }

  lemma {:induction false} RunCounts(s: State, events: seq<Event>)
    requires Invariant(s) && RunOf(s, events)
    ensures Lost(After(s, events)) - Lost(s) == After(s, events).schedulerFaults - s.schedulerFaults
    decreases |events|
  {
    if events != [] {
      StepKeepsInvariant(s, events[0]);
      StepCounts(s, events[0]);
      RunCounts(Next(s, events[0]), events[1..]);
    }
  }

  /** In every run the lost leases are exactly as many as the scheduler's faults. */
  lemma {:induction false} LostLeasesAreFaults(s: State)
    requires Reachable(s)
    ensures Lost(s) == s.schedulerFaults
  {
    var start, events :| RunTo(start, events, s);
    InitialInvariant(start);
    RunCounts(start, events);
  }

  // ---------------------------------------------------------------- exactly once

  lemma {:induction false} NoEntryLost(entries: seq<Entry>)
    ensures LostEntries(entries) == 0 <==> forall i :: 0 <= i < |entries| ==> !entries[i].use.Abandoned?
  {
    if entries != [] {
      var front := entries[..|entries| - 1];
      NoEntryLost(front);
      assert forall i :: 0 <= i < |front| ==> front[i] == entries[i];
    }
  }

  lemma {:induction false} NoOpeningLost(openings: seq<Opening>)
    ensures LostOpenings(openings) == 0 <==> forall k :: 0 <= k < |openings| ==> !LostOpening(openings[k])
  {
    if openings != [] {
      var front := openings[..|openings| - 1];
      NoOpeningLost(front);
      assert forall k :: 0 <= k < |front| ==> front[k] == openings[k];
    }
  }

  lemma {:induction false} NoLateLost(late: seq<LateLease>)
    ensures LostLate(late) == 0 <==> forall j :: 0 <= j < |late| ==> !late[j].use.Abandoned?
  {
    if late != [] {
      var front := late[..|late| - 1];
      NoLateLost(front);
      assert forall j :: 0 <= j < |front| ==> front[j] == late[j];
    }
  }

  /** Every lease that was acquired and dealt with was released; NotHere stands for a begin() that kept none. */
  ghost predicate AllReleased(s: State) {
    && (forall i :: 0 <= i < |s.entries| ==> s.entries[i].use.Released?)
    && (forall k :: 0 <= k < |s.openings| ==> s.openings[k].Done? && (s.openings[k].use.Released? || s.openings[k].use.NotHere?))
    && (forall j :: 0 <= j < |s.lateLeases| && s.lateLeases[j].stage == Gone ==> s.lateLeases[j].use.Released?)
  }

  /**
   * A retired runtime has released every lease, each exactly once, if and only if the scheduler
   * never failed before a release.
   */
  lemma {:induction false} RetiredReleasedExactlyOnce(s: State)
    requires Reachable(s) && s.phase == Retired
    ensures AllReleased(s) <==> s.schedulerFaults == 0
  {
    ReachableInvariant(s);
    LostLeasesAreFaults(s);
    NoEntryLost(s.entries);
    NoOpeningLost(s.openings);
    NoLateLost(s.lateLeases);
    forall i | 0 <= i < |s.entries| ensures s.entries[i].use.Released? <==> !s.entries[i].use.Abandoned? {
      assert EntryInvariant(s.entries[i]);
    }
    forall k | 0 <= k < |s.openings|
      ensures s.openings[k].Done? && (s.openings[k].use.Released? || s.openings[k].use.NotHere? <==> !LostOpening(s.openings[k]))
    {
      assert OpeningUse(s.openings[k], s.schedulerFaults);
    }
    forall j | 0 <= j < |s.lateLeases|
      ensures s.lateLeases[j].use.Abandoned? ==> s.lateLeases[j].stage == Gone
      ensures s.lateLeases[j].stage == Gone ==> (s.lateLeases[j].use.Released? <==> !s.lateLeases[j].use.Abandoned?)
    {
      assert LateInvariant(s.lateLeases[j]);
    }
  }

  // ---------------------------------------------------------------- what is lost stays lost

  ghost predicate StaysLost(s: State, t: State) {
    && |s.entries| <= |t.entries| && |s.openings| <= |t.openings| && |s.lateLeases| <= |t.lateLeases|
    && (forall i :: 0 <= i < |s.entries| && s.entries[i].use.Abandoned? ==> t.entries[i].use.Abandoned?)
    && (forall k :: 0 <= k < |s.openings| && LostOpening(s.openings[k]) ==> LostOpening(t.openings[k]))
    && (forall j :: 0 <= j < |s.lateLeases| && s.lateLeases[j].use.Abandoned? ==> t.lateLeases[j].use.Abandoned?)
  }

  lemma {:induction false} OpeningStepLeavesLost(s: State, e: Event)
    requires Invariant(s) && Enabled(s, e) && (OpeningEvent(e) || e.LeaseChecked?)
    ensures StaysLost(s, Next(s, e))
  {
    assert OpeningUse(s.openings[e.k], s.schedulerFaults);
  }

  lemma {:induction false} LateStepLeavesLost(s: State, e: Event)
    requires Invariant(s) && Enabled(s, e) && LateEvent(e)
    ensures StaysLost(s, Next(s, e))
  {
    if !e.LateLeaseArrived? && !e.LateAcquireFailed? {
      assert LateInvariant(s.lateLeases[e.j]);
    }
  }

  lemma {:induction false} StepLeavesLost(s: State, e: Event)
    requires Invariant(s) && Enabled(s, e)
    ensures StaysLost(s, Next(s, e))
  {
    if EntryEvent(e) {
      EntryEventChangesOneContext(s, e);
      OneContextCounts(s, e.i, Next(s, e), e.ReleaseNotMade?);
    } else if OpeningEvent(e) || e.LeaseChecked? {
      OpeningStepLeavesLost(s, e);
    } else if LateEvent(e) {
      LateStepLeavesLost(s, e);
    }
  }

  /** A release lost to a scheduler fault is never made up for, whichever of the three it was. */
  lemma {:induction false} FaultLosesRelease(s: State, events: seq<Event>)
    requires Invariant(s) && RunOf(s, events)
    ensures StaysLost(s, After(s, events))
    decreases |events|
  {
    if events != [] {
      StepKeepsInvariant(s, events[0]);
      StepLeavesLost(s, events[0]);
      FaultLosesRelease(Next(s, events[0]), events[1..]);
    }
  }

  lemma {:induction false} OneStep(s: State, e: Event, rest: seq<Event>)
    requires Enabled(s, e) && RunOf(Next(s, e), rest)
    ensures RunOf(s, [e] + rest) && After(s, [e] + rest) == After(Next(s, e), rest)
  {
    assert ([e] + rest)[1..] == rest;
  }

  /** A run that ends retired after one fault. */
  ghost predicate RetiresFaulty(s: State, events: seq<Event>) {
    RunOf(s, events) && After(s, events).phase == Retired && After(s, events).schedulerFaults == 1
  }

  /** Such a run from the start has lost a lease. */
  lemma {:induction false} FaultyRunLoses(start: State, events: seq<Event>)
    requires IsInitial(start) && RetiresFaulty(start, events)
    ensures Reachable(After(start, events)) && Lost(After(start, events)) == 1 && !AllReleased(After(start, events))
  {
    InitialInvariant(start);
    RunCounts(start, events);
    assert RunTo(start, events, After(start, events));
    RetiredReleasedExactlyOnce(After(start, events));
  }

  /** Retirement after a fault, when nothing else is under way. */
  lemma {:induction false} RetireAtOnce(s: State) returns (events: seq<Event>)
    requires s.phase == Open && s.schedulerFaults == 1
    requires forall k :: 0 <= k < |s.openings| ==> s.openings[k].Done?
    requires forall i :: 0 <= i < |s.entries| ==> s.entries[i].state != Ready && s.entries[i].stage == Gone
    requires forall j :: 0 <= j < |s.lateLeases| ==> s.lateLeases[j].stage == Gone
    ensures RetiresFaulty(s, events)
  {
    var retiring := Next(s, Retire);
    OneStep(retiring, RetirementCompletes, []);
    OneStep(s, Retire, [RetirementCompletes]);
    events := [Retire] + [RetirementCompletes];
  }

  /** A runtime with one context and nothing else under way. */
  ghost predicate OneContext(s: State, e: Entry) {
    s.phase == Open && s.schedulerFaults == 0 && s.entries == [e] && s.openings == [Done(NotHere)] && s.lateLeases == []
  }

  lemma {:induction false} ContextCanBegin(start: State) returns (s: State, events: seq<Event>)
    requires IsInitial(start)
    ensures RunOf(start, events) && After(start, events) == s && OneContext(s, Entry(Ready, Live, 1, false, false, Held(false)))
  {
    var s1 := Next(start, Begin);
    var s2 := Next(s1, AcquireFulfilled(0));
    s := Next(s2, LeaseChecked(0, true));
    OneStep(s2, LeaseChecked(0, true), []);
    OneStep(s1, AcquireFulfilled(0), [LeaseChecked(0, true)]);
    OneStep(start, Begin, [AcquireFulfilled(0)] + [LeaseChecked(0, true)]);
    events := [Begin] + ([AcquireFulfilled(0)] + [LeaseChecked(0, true)]);
  }

  lemma {:induction false} ContextCanBeReset(start: State) returns (s: State, events: seq<Event>)
    requires OneContext(start, Entry(Ready, Live, 1, false, false, Held(false)))
    ensures RunOf(start, events) && After(start, events) == s
    ensures OneContext(s, Entry(Ending, ReleasePreparing(true), 0, false, true, Held(true)))
  {
    var s1 := Next(start, End(0));
    var s2 := Next(s1, ResetCalled(0));
    s := Next(s2, ResetEnded(0, true));
    OneStep(s2, ResetEnded(0, true), []);
    OneStep(s1, ResetCalled(0), [ResetEnded(0, true)]);
    OneStep(start, End(0), [ResetCalled(0)] + [ResetEnded(0, true)]);
    events := [End(0)] + ([ResetCalled(0)] + [ResetEnded(0, true)]);
  }

  lemma {:induction false} RunsJoin(s: State, first: seq<Event>, second: seq<Event>)
    requires RunOf(s, first) && RunOf(After(s, first), second)
    ensures RunOf(s, first + second) && After(s, first + second) == After(After(s, first), second)
    decreases |first|
  {
    if first == [] {
      assert first + second == second;
    } else {
      RunsJoin(Next(s, first[0]), first[1..], second);
      assert (first + second)[1..] == first[1..] + second;
    }
  }

  /** The lease of a context is lost: its release after a fulfilled reset is not made. */
  lemma {:induction false} ContextLeaseCanBeLost(start: State) returns (events: seq<Event>)
    requires IsInitial(start)
    ensures RetiresFaulty(start, events) && !AllReleased(After(start, events))
  {
    var ready, first := ContextCanBegin(start);
    var reset, second := ContextCanBeReset(ready);
    var third := ReleaseNotMadeThenRetired(reset);
    RunsJoin(ready, second, third);
    RunsJoin(start, first, second + third);
    events := first + (second + third);
    FaultyRunLoses(start, events);
  }

  lemma {:induction false} ReleaseNotMadeThenRetired(s: State) returns (events: seq<Event>)
    requires OneContext(s, Entry(Ending, ReleasePreparing(true), 0, false, true, Held(true)))
    ensures Enabled(s, ReleaseNotMade(0)) && RetiresFaulty(s, events)
  {
    var lost := Next(s, ReleaseNotMade(0));
    events := RetireAtOnce(lost);
    OneStep(s, ReleaseNotMade(0), events);
    events := [ReleaseNotMade(0)] + events;
  }

  /** The lease of a begin() is lost: it was unusable and its rollback is not made. */
  lemma {:induction false} RolledBackLeaseCanBeLost(start: State) returns (events: seq<Event>)
    requires IsInitial(start)
    ensures RetiresFaulty(start, events) && !AllReleased(After(start, events))
  {
    var s1 := Next(start, Begin);
    var s2 := Next(s1, AcquireFulfilled(0));
    var s3 := Next(s2, LeaseChecked(0, false));
    var s4 := Next(s3, RollbackNotMade(0));
    events := RetireAtOnce(s4);
    OneStep(s3, RollbackNotMade(0), events);
    events := [RollbackNotMade(0)] + events;
    OneStep(s2, LeaseChecked(0, false), events);
    events := [LeaseChecked(0, false)] + events;
    OneStep(s1, AcquireFulfilled(0), events);
    events := [AcquireFulfilled(0)] + events;
    OneStep(start, Begin, events);
    events := [Begin] + events;
    FaultyRunLoses(start, events);
  }

  /** A late lease is lost: it came after its acquire was given up and its release is not made. */
  lemma {:induction false} LateLeaseCanBeLost(start: State) returns (events: seq<Event>)
    requires IsInitial(start)
    ensures RetiresFaulty(start, events) && !AllReleased(After(start, events))
  {
    var s1 := Next(start, Begin);
    var s2 := Next(s1, AcquireFailed(0, true));
    var s3 := Next(s2, LateLeaseArrived);
    var s4 := Next(s3, LateReleaseNotMade(0));
    events := RetireAtOnce(s4);
    OneStep(s3, LateReleaseNotMade(0), events);
    events := [LateReleaseNotMade(0)] + events;
    OneStep(s2, LateLeaseArrived, events);
    events := [LateLeaseArrived] + events;
    OneStep(s1, AcquireFailed(0, true), events);
    events := [AcquireFailed(0, true)] + events;
    OneStep(start, Begin, events);
    events := [Begin] + events;
    FaultyRunLoses(start, events);
  }
}
