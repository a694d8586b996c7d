/**
 * What the operations on a session context come to, step after step from any state in which they
 * can be called: the references that are counted, how its lease is released, and what is refused.
 */
module SessionContextPaths {
  import opened SessionContext

  /** The events are possible one after another and lead to the state. */
  ghost predicate Leads(s: State, events: seq<Event>, t: State)
    decreases |events|
  {
    if events == [] then s == t else Enabled(s, events[0]) && Leads(Next(s, events[0]), events[1..], t)
  }

  lemma {:induction false} LeadsIsRun(s: State, events: seq<Event>, t: State)
    ensures Leads(s, events, t) <==> RunOf(s, events) && After(s, events) == t
    decreases |events|
  {
    if events != [] && Enabled(s, events[0]) {
      LeadsIsRun(Next(s, events[0]), events[1..], t);
    }
  }

  ghost predicate Step(s: State, e: Event, t: State) {
    Enabled(s, e) && Next(s, e) == t
  }

  /** Steps from state to state, one after another. */
  lemma {:induction false} Chain(states: seq<State>, events: seq<Event>)
    requires |states| == |events| + 1
    requires forall n {:trigger events[n]} :: 0 <= n < |events| ==> Step(states[n], events[n], states[n + 1])
    ensures Leads(states[0], events, states[|events|])
    decreases |events|
  {
    if events != [] {
      assert Step(states[0], events[0], states[1]);
      forall n | 0 <= n < |events[1..]| ensures Step(states[1..][n], events[1..][n], states[1..][n + 1]) {
        assert Step(states[n + 1], events[n + 1], states[n + 2]);
      }
      Chain(states[1..], events[1..]);
    }
  }

  // ---------------------------------------------------------------- contexts in use

  /** A context of an open runtime that is in use, with no operation running on it. */
  predicate IsIdle(s: State, i: nat) {
    && s.phase == Open && i < |s.entries|
    && var e := s.entries[i];
      e.state == Ready && e.stage == Live && e.references >= 1 && !e.active && !e.releaseClaimed && e.use.Held?
  }

  /** That is how every ready context of a run is, unless an operation runs on it. */
  lemma {:induction false} ReadyIsIdle(s: State, i: nat)
    requires Reachable(s) && i < |s.entries| && s.entries[i].state == Ready && !s.entries[i].active
    ensures IsIdle(s, i)
  {
    ReachableInvariant(s);
    assert EntryInvariant(s.entries[i]);
  }

  function Put(s: State, i: nat, e: Entry, m: Monitor): State
    requires i < |s.entries|
  {
    s.(entries := s.entries[i := e], monitor := m)
  }

  /** With this many more references to the context. */
  function Referenced(s: State, i: nat, more: nat): State
    requires i < |s.entries|
  {
    Put(s, i, s.entries[i].(references := s.entries[i].references + more), s.monitor.(references := s.monitor.references + more))
  }

  /** An operation runs on the context. */
  function Running(s: State, i: nat): State
    requires i < |s.entries|
  {
    Put(s, i, s.entries[i].(active := true), s.monitor.(activeOperations := s.monitor.activeOperations + 1))
  }

  /** Each nested begin adds a reference and each end takes one away; the context stays. */
  lemma {:induction false} EndUndoesBegin(s: State, i: nat, more: nat)
    requires IsIdle(s, i)
    ensures Step(Referenced(s, i, more), BeginNested(i), Referenced(s, i, more + 1))
    ensures Step(Referenced(s, i, more + 1), End(i), Referenced(s, i, more))
    ensures Referenced(s, i, 0) == s
  {}

  /** Nested begins and as many ends, the ends last. */
  ghost function Nested(i: nat, count: nat): seq<Event> {
    if count == 0 then [] else [BeginNested(i)] + Nested(i, count - 1) + [End(i)]
  }

  /** However deep the nesting, the matching ends leave the context as it was. */
  lemma {:induction false} NestedEndsRestore(s: State, i: nat, depth: nat, count: nat)
    requires IsIdle(s, i)
    ensures Leads(Referenced(s, i, depth), Nested(i, count), Referenced(s, i, depth))
    decreases count
  {
    if count > 0 {
      EndUndoesBegin(s, i, depth);
      NestedEndsRestore(s, i, depth + 1, count - 1);
      var inner := Nested(i, count - 1);
      LeadsThen(Referenced(s, i, depth + 1), inner, Referenced(s, i, depth + 1), End(i), Referenced(s, i, depth));
      assert ([BeginNested(i)] + (inner + [End(i)]))[1..] == inner + [End(i)];
      assert Nested(i, count) == [BeginNested(i)] + (inner + [End(i)]);
    }
  }

  lemma {:induction false} LeadsThen(s: State, events: seq<Event>, m: State, e: Event, t: State)
    requires Leads(s, events, m) && Step(m, e, t)
    ensures Leads(s, events + [e], t)
    decreases |events|
  {
    if events == [] {
      assert (events + [e])[1..] == [];
    } else {
      LeadsThen(Next(s, events[0]), events[1..], m, e, t);
      assert (events + [e])[1..] == events[1..] + [e];
    }
  }

  /** An operation that returns leaves the context as it was; while it runs, nothing else is admitted. */
  lemma {:induction false} OperationReturns(s: State, i: nat)
    requires IsIdle(s, i)
    ensures Step(s, Run(i), Running(s, i)) && Step(Running(s, i), OperationEnded(i, false), s)
    ensures forall e :: e in {BeginNested(i), Run(i), End(i)} ==> Step(Running(s, i), e, Running(s, i))
  {}

  // ---------------------------------------------------------------- how a context leaves

  /** The counts once a context has gone: it was ready, with these references. */
  function OneLess(m: Monitor, references: nat): Monitor {
    m.(ready := m.ready - 1, pinnedLeases := m.pinnedLeases - 1, references := m.references - references)
  }

  function Left(state: EntryState, stage: Stage, claimed: bool, use: Use): Entry {
    Entry(state, stage, 0, false, claimed, use)
  }

  /** The context has gone, its lease released like this. */
  function HasLeft(s: State, i: nat, reusable: bool, reset: bool, open: bool): State
    requires i < |s.entries|
  {
    Put(s, i, Left(Closed, Gone, true, Released(reusable, reset, open)), OneLess(s.monitor, s.entries[i].references))
  }

  function Ended(s: State, i: nat, stage: Stage, claimed: bool, use: Use): State
    requires i < |s.entries|
  {
    var m := s.monitor;
    Put(s, i, Left(Ending, stage, claimed, use), m.(ready := m.ready - 1, ending := m.ending + 1, references := m.references - 1))
  }

  /** The context is to be reset because its last reference was given up. */
  predicate IsLast(s: State, i: nat) {
    IsIdle(s, i) && s.entries[i].references == 1
  }

  lemma {:induction false} LastEnd(s: State, i: nat)
    requires IsLast(s, i)
    ensures Step(s, End(i), Ended(s, i, ResetPreparing, false, s.entries[i].use))
    ensures Step(Ended(s, i, ResetPreparing, false, s.entries[i].use), ResetCalled(i), Ended(s, i, ResetInFlight, false, s.entries[i].use))
  {}

  lemma {:induction false} ResetIsOver(s: State, i: nat, ok: bool)
    requires IsLast(s, i)
    ensures var use := s.entries[i].use;
            Step(Ended(s, i, ResetInFlight, false, use), ResetEnded(i, ok),
                 Ended(s, i, ReleasePreparing(ok), true, if ok then Held(true) else use))
  {}

  lemma {:induction false} ResetIsNotMade(s: State, i: nat)
    requires IsLast(s, i)
    ensures Step(Ended(s, i, ResetPreparing, false, s.entries[i].use), ResetEnded(i, false),
                 Ended(s, i, ReleasePreparing(false), true, s.entries[i].use))
  {}

  lemma {:induction false} EndedIsReleased(s: State, i: nat, reusable: bool, reset: bool)
    requires IsLast(s, i)
    ensures var released := Released(reusable, reset, true);
            && Step(Ended(s, i, ReleasePreparing(reusable), true, Held(reset)), ReleaseCalled(i), Ended(s, i, ReleaseInFlight, true, released))
            && Step(Ended(s, i, ReleaseInFlight, true, released), ReleaseEnded(i), HasLeft(s, i, reusable, reset, true))
  {}

  /** The last end resets the context, and after a fulfilled reset its lease is released for reuse. */
  lemma {:induction false} LastEndReleases(s: State, i: nat)
    requires IsLast(s, i)
    ensures Leads(s, [End(i), ResetCalled(i), ResetEnded(i, true), ReleaseCalled(i), ReleaseEnded(i)], HasLeft(s, i, true, true, true))
  {
    var use := s.entries[i].use;
    LastEnd(s, i);
    ResetIsOver(s, i, true);
    EndedIsReleased(s, i, true, true);
    Chain([s, Ended(s, i, ResetPreparing, false, use), Ended(s, i, ResetInFlight, false, use), Ended(s, i, ReleasePreparing(true), true, Held(true)),
           Ended(s, i, ReleaseInFlight, true, Released(true, true, true)), HasLeft(s, i, true, true, true)],
          [End(i), ResetCalled(i), ResetEnded(i, true), ReleaseCalled(i), ReleaseEnded(i)]);
  }

  /** A reset that fails, or is never made, evicts it. */
  lemma {:induction false} FailedResetEvicts(s: State, i: nat)
    requires IsLast(s, i)
    ensures
      var gone := HasLeft(s, i, false, s.entries[i].use.reset, true);
      && Leads(s, [End(i), ResetCalled(i), ResetEnded(i, false), ReleaseCalled(i), ReleaseEnded(i)], gone)
      && Leads(s, [End(i), ResetEnded(i, false), ReleaseCalled(i), ReleaseEnded(i)], gone)
  {
    var use := s.entries[i].use;
    var released := Released(false, use.reset, true);
    LastEnd(s, i);
    ResetIsOver(s, i, false);
    ResetIsNotMade(s, i);
    EndedIsReleased(s, i, false, use.reset);
    Chain([s, Ended(s, i, ResetPreparing, false, use), Ended(s, i, ResetInFlight, false, use), Ended(s, i, ReleasePreparing(false), true, use),
           Ended(s, i, ReleaseInFlight, true, released), HasLeft(s, i, false, use.reset, true)],
          [End(i), ResetCalled(i), ResetEnded(i, false), ReleaseCalled(i), ReleaseEnded(i)]);
    Chain([s, Ended(s, i, ResetPreparing, false, use), Ended(s, i, ReleasePreparing(false), true, use), Ended(s, i, ReleaseInFlight, true, released),
           HasLeft(s, i, false, use.reset, true)], [End(i), ResetEnded(i, false), ReleaseCalled(i), ReleaseEnded(i)]);
  }

  function Fatally(s: State, i: nat, stage: Stage, use: Use): State
    requires i < |s.entries|
  {
    var m := s.monitor;
    Put(s, i, Left(Fatal, stage, true, use),
        m.(ready := m.ready - 1, fatalCleaning := m.fatalCleaning + 1, references := m.references - s.entries[i].references))
  }

  lemma {:induction false} FatalEnds(s: State, i: nat)
    requires IsIdle(s, i)
    ensures Step(Running(s, i), OperationEnded(i, true), Fatally(s, i, ReleasePreparing(false), s.entries[i].use))
  {}

  lemma {:induction false} FatalIsReleased(s: State, i: nat)
    requires IsIdle(s, i)
    ensures
      var released := Released(false, s.entries[i].use.reset, true);
      var closed := Put(s, i, Left(Closed, Notifying, true, released), OneLess(s.monitor, s.entries[i].references));
      && Step(Fatally(s, i, ReleasePreparing(false), s.entries[i].use), ReleaseCalled(i), Fatally(s, i, ReleaseInFlight, released))
      && Step(Fatally(s, i, ReleaseInFlight, released), ReleaseEnded(i), closed)
      && Step(closed, OwnerNotified(i), HasLeft(s, i, false, s.entries[i].use.reset, true))
  {}

  /** A fatal operation takes the context out with all its references; the lease is evicted, and then the owner is told. */
  lemma {:induction false} FatalOperationEvicts(s: State, i: nat)
    requires IsIdle(s, i)
    ensures Leads(s, [Run(i), OperationEnded(i, true), ReleaseCalled(i), ReleaseEnded(i), OwnerNotified(i)],
                  HasLeft(s, i, false, s.entries[i].use.reset, true))
  {
    var use := s.entries[i].use;
    var released := Released(false, use.reset, true);
    OperationReturns(s, i);
    FatalEnds(s, i);
    FatalIsReleased(s, i);
    Chain([s, Running(s, i), Fatally(s, i, ReleasePreparing(false), use), Fatally(s, i, ReleaseInFlight, released),
           Put(s, i, Left(Closed, Notifying, true, released), OneLess(s.monitor, s.entries[i].references)),
           HasLeft(s, i, false, use.reset, true)],
          [Run(i), OperationEnded(i, true), ReleaseCalled(i), ReleaseEnded(i), OwnerNotified(i)]);
  }

  // ---------------------------------------------------------------- retirement

  /** A context that was being reset, or whose release was decided, when the runtime retired. */
  predicate IsResetting(s: State, i: nat, stage: Stage) {
    && s.phase == Retiring && i < |s.entries|
    && s.entries[i].state == Ending && s.entries[i].stage == stage && s.entries[i].references == 0 && !s.entries[i].active
    && s.entries[i].releaseClaimed == stage.ReleasePreparing? && s.entries[i].use.Held?
  }

  function LeftLate(s: State, i: nat, reset: bool): State
    requires i < |s.entries|
  {
    Put(s, i, Left(Closed, Gone, true, Released(false, reset, false)),
        s.monitor.(ending := s.monitor.ending - 1, pinnedLeases := s.monitor.pinnedLeases - 1))
  }

  lemma {:induction false} LateResetIsOver(s: State, i: nat, ok: bool)
    requires IsResetting(s, i, ResetInFlight)
    ensures Step(s, ResetEnded(i, ok), Put(s, i, Left(Ending, ReleasePreparing(false), true, if ok then Held(true) else s.entries[i].use), s.monitor))
  {}

  lemma {:induction false} LateRelease(s: State, i: nat, reusable: bool)
    requires IsResetting(s, i, ReleasePreparing(reusable))
    ensures var released := Left(Ending, ReleaseInFlight, true, Released(false, s.entries[i].use.reset, false));
            && Step(s, ReleaseCalled(i), Put(s, i, released, s.monitor))
            && Step(Put(s, i, released, s.monitor), ReleaseEnded(i), LeftLate(s, i, s.entries[i].use.reset))
  {}

  /** A release for reuse that retirement overtakes before the call is an eviction. */
  lemma {:induction false} RetirementOvertakesRelease(s: State, i: nat, reusable: bool)
    requires IsResetting(s, i, ReleasePreparing(reusable))
    ensures Leads(s, [ReleaseCalled(i), ReleaseEnded(i)], LeftLate(s, i, s.entries[i].use.reset))
  {
    LateRelease(s, i, reusable);
    Chain([s, Put(s, i, Left(Ending, ReleaseInFlight, true, Released(false, s.entries[i].use.reset, false)), s.monitor),
           LeftLate(s, i, s.entries[i].use.reset)], [ReleaseCalled(i), ReleaseEnded(i)]);
  }

  /** A reset that is fulfilled only after retirement began no longer makes the lease reusable. */
  lemma {:induction false} RetirementOvertakesReset(s: State, i: nat)
    requires IsResetting(s, i, ResetInFlight)
    ensures Leads(s, [ResetEnded(i, true), ReleaseCalled(i), ReleaseEnded(i)], LeftLate(s, i, true))
  {
    LateResetIsOver(s, i, true);
    var m := Put(s, i, Left(Ending, ReleasePreparing(false), true, Held(true)), s.monitor);
    LateRelease(m, i, false);
    assert LeftLate(m, i, true) == LeftLate(s, i, true);
    Chain([s, m, Put(m, i, Left(Ending, ReleaseInFlight, true, Released(false, true, false)), m.monitor), LeftLate(m, i, true)],
          [ResetEnded(i, true), ReleaseCalled(i), ReleaseEnded(i)]);
  }

  /** A context that retirement took, with or without an operation running on it. */
  predicate IsTaken(s: State, i: nat, e: Entry) {
    i < |s.entries| && s.entries[i] == e.(state := Leaving, stage := AwaitOperation, references := 0)
  }

  /** Retirement closes the runtime and takes every context in use; the others go on with what they do. */
  lemma {:induction false} RetirementTakesContexts(s: State)
    requires s.phase == Open
    ensures var t := Next(s, Retire);
            && t.phase == Retiring && t.openings == s.openings && t.lateLeases == s.lateLeases && |t.entries| == |s.entries|
            && forall i :: 0 <= i < |s.entries| ==>
                 if s.entries[i].state == Ready then IsTaken(t, i, s.entries[i]) else t.entries[i] == s.entries[i]
  {}

  function TakenLeaves(s: State, i: nat): State
    requires i < |s.entries| && s.entries[i].use.Held?
  {
    Put(s, i, Left(Closed, Gone, true, Released(false, s.entries[i].use.reset, s.phase == Open)),
        s.monitor.(retiring := s.monitor.retiring - 1, pinnedLeases := s.monitor.pinnedLeases - 1))
  }

  /** A taken context waits for the operation running on it; then its lease is evicted. */
  lemma {:induction false} TakenIsEvicted(s: State, i: nat, e: Entry)
    requires IsTaken(s, i, e) && !e.releaseClaimed && e.use.Held?
    ensures e.active ==> !Enabled(s, OperationAwaited(i))
    ensures !e.active ==> Leads(s, [OperationAwaited(i), ReleaseCalled(i), ReleaseEnded(i)], TakenLeaves(s, i))
    ensures e.active && s.phase != Open ==>
              forall fatal :: Step(s, OperationEnded(i, fatal),
                                   Put(s, i, s.entries[i].(active := false), s.monitor.(activeOperations := s.monitor.activeOperations - 1)))
  {
    if !e.active {
      var a := Put(s, i, Left(Leaving, ReleasePreparing(false), true, e.use), s.monitor);
      var b := Put(s, i, Left(Leaving, ReleaseInFlight, true, Released(false, e.use.reset, s.phase == Open)), s.monitor);
      TakenSteps(s, i, e);
      Chain([s, a, b, TakenLeaves(s, i)], [OperationAwaited(i), ReleaseCalled(i), ReleaseEnded(i)]);
    }
  }

  lemma {:induction false} TakenSteps(s: State, i: nat, e: Entry)
    requires IsTaken(s, i, e) && !e.releaseClaimed && e.use.Held? && !e.active
    ensures
      var a := Put(s, i, Left(Leaving, ReleasePreparing(false), true, e.use), s.monitor);
      var b := Put(s, i, Left(Leaving, ReleaseInFlight, true, Released(false, e.use.reset, s.phase == Open)), s.monitor);
      Step(s, OperationAwaited(i), a) && Step(a, ReleaseCalled(i), b) && Step(b, ReleaseEnded(i), TakenLeaves(s, i))
  {}

  /** Once the runtime retires, nothing is begun, run or ended, and a second retirement changes nothing. */
  lemma {:induction false} ClosedGateRefuses(s: State, i: nat)
    requires s.phase != Open
    ensures Step(s, Begin, s) && Step(s, Retire, s)
    ensures i < |s.entries| ==> Step(s, BeginNested(i), s) && Step(s, Run(i), s) && Step(s, End(i), s)
  {}

  /** Retirement is over exactly when every begin is done, every context has gone and every late lease has been dealt with. */
  lemma {:induction false} RetirementCompletesIff(s: State)
    requires Reachable(s)
    ensures Enabled(s, RetirementCompletes) <==>
            && s.phase == Retiring && (forall k :: 0 <= k < |s.openings| ==> s.openings[k].Done?)
            && (forall i :: 0 <= i < |s.entries| ==> s.entries[i].stage == Gone)
            && (forall j :: 0 <= j < |s.lateLeases| ==> s.lateLeases[j].stage == Gone)
  {
    ReachableInvariant(s);
  }

  // ---------------------------------------------------------------- begin

  function Opens(s: State, o: Opening): State {
    s.(openings := s.openings + [o], monitor := s.monitor.(opening := s.monitor.opening + 1))
  }

  function Opened(s: State, use: Use): State {
    s.(openings := s.openings + [Done(use)])
  }

  lemma {:induction false} BeginStarts(s: State)
    requires s.phase == Open
    ensures Step(s, Begin, Opens(s, Acquiring))
    ensures Step(Opens(s, Acquiring), AcquireFulfilled(|s.openings|), Opens(s, Checking(Held(false))))
  {}

  /** A begin that gets a usable lease adds one context, with one reference and the lease pinned. */
  lemma {:induction false} BeginAddsContext(s: State)
    requires s.phase == Open
    ensures
      var k, m := |s.openings|, s.monitor;
      Leads(s, [Begin, AcquireFulfilled(k), LeaseChecked(k, true)],
            Opened(s, NotHere).(entries := s.entries + [Entry(Ready, Live, 1, false, false, Held(false))],
                                monitor := m.(ready := m.ready + 1, pinnedLeases := m.pinnedLeases + 1, references := m.references + 1)))
  {
    var k, m := |s.openings|, s.monitor;
    BeginStarts(s);
    Chain([s, Opens(s, Acquiring), Opens(s, Checking(Held(false))),
           Opened(s, NotHere).(entries := s.entries + [Entry(Ready, Live, 1, false, false, Held(false))],
                               monitor := m.(ready := m.ready + 1, pinnedLeases := m.pinnedLeases + 1, references := m.references + 1))],
          [Begin, AcquireFulfilled(k), LeaseChecked(k, true)]);
  }

  /** One that fails adds none; an acquire that was given up may still bring its lease. */
  lemma {:induction false} FailedBeginAddsNone(s: State, outlived: bool)
    requires s.phase == Open
    ensures Leads(s, [Begin, AcquireFailed(|s.openings|, outlived)],
                  Opened(s, NotHere).(lateAcquires := s.lateAcquires + if outlived then 1 else 0))
  {
    BeginStarts(s);
    Chain([s, Opens(s, Acquiring), Opened(s, NotHere).(lateAcquires := s.lateAcquires + if outlived then 1 else 0)],
          [Begin, AcquireFailed(|s.openings|, outlived)]);
  }

  /** An acquire that was given up and fails after all leaves nothing behind. */
  lemma {:induction false} LateFailureLeavesNothing(s: State)
    requires s.phase == Open
    ensures Leads(s, [Begin, AcquireFailed(|s.openings|, true), LateAcquireFailed], Opened(s, NotHere))
  {
    BeginStarts(s);
    Chain([s, Opens(s, Acquiring), Opened(s, NotHere).(lateAcquires := s.lateAcquires + 1), Opened(s, NotHere)],
          [Begin, AcquireFailed(|s.openings|, true), LateAcquireFailed]);
  }

  /** The opening is done, and the begin no longer counts. */
  function RolledBack(s: State, k: nat, use: Use): State
    requires k < |s.openings|
  {
    s.(openings := s.openings[k := Done(use)], monitor := s.monitor.(opening := s.monitor.opening - 1))
  }

  /** A lease that is unusable, or that comes once the runtime retires, is evicted: no context is added. */
  lemma {:induction false} RefusedLeaseIsEvicted(s: State, k: nat, usable: bool, reset: bool)
    requires k < |s.openings| && s.openings[k] == Checking(Held(reset)) && (!usable || s.phase != Open)
    ensures Leads(s, [LeaseChecked(k, usable), RollbackCalled(k), RollbackEnded(k)],
                  RolledBack(s, k, Released(false, reset, s.phase == Open)))
  {
    var released := Released(false, reset, s.phase == Open);
    var a := s.(openings := s.openings[k := RollingBack(ReleasePreparing(false), Held(reset))]);
    var b := s.(openings := s.openings[k := RollingBack(ReleaseInFlight, released)]);
    Chain([s, a, b, RolledBack(s, k, released)], [LeaseChecked(k, usable), RollbackCalled(k), RollbackEnded(k)]);
  }

  /** A lease that comes after its acquire was given up is evicted. */
  lemma {:induction false} LateLeaseIsEvicted(s: State)
    requires s.lateAcquires > 0
    ensures
      var j := |s.lateLeases|;
      Leads(s, [LateLeaseArrived, LateReleaseCalled(j), LateReleaseEnded(j)],
            s.(lateAcquires := s.lateAcquires - 1, lateLeases := s.lateLeases + [LateLease(Gone, Released(false, false, s.phase == Open))]))
  {
    var j, released := |s.lateLeases|, Released(false, false, s.phase == Open);
    var t := s.(lateAcquires := s.lateAcquires - 1);
    Chain([s, t.(lateLeases := s.lateLeases + [LateLease(ReleasePreparing(false), Held(false))]),
           t.(lateLeases := s.lateLeases + [LateLease(ReleaseInFlight, released)]),
           t.(lateLeases := s.lateLeases + [LateLease(Gone, released)])],
          [LateLeaseArrived, LateReleaseCalled(j), LateReleaseEnded(j)]);
  }
}
