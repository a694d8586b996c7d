/**
 * The mutable session-context runtime. Its methods are the stretches between two awaits of the
 * source's operations; each changes the object exactly as one step of the step system does.
 */
module SessionContextRuntime {
  import opened SessionContext

  class Runtime {
    var phase: Phase
    var entries: seq<Entry>
    var openings: seq<Opening>
    var lateAcquires: nat
    var lateLeases: seq<LateLease>
    var awaitedOpenings: nat
    var awaitedEntries: nat
    var schedulerFaults: nat
    var monitor: Monitor

    ghost function View(): State
      reads this
    {
      State(phase, entries, openings, lateAcquires, lateLeases, awaitedOpenings, awaitedEntries, schedulerFaults, monitor)
    }

    constructor ()
      ensures IsInitial(View())
    {
      phase, entries, openings, lateAcquires, lateLeases := Open, [], [], 0, [];
      awaitedOpenings, awaitedEntries, schedulerFaults, monitor := 0, 0, 0, NO_ACTIVITY;
    }

    /** Start acquiring a lease for a new context. */
    method BeginContext() returns (started: bool)
      modifies this
      ensures View() == Next(old(View()), Begin)
      ensures started <==> old(phase) == Open
    {
      started := phase == Open;
      if started {
        openings := openings + [Acquiring];
        monitor := monitor.(opening := monitor.opening + 1);
      }
    }

    /** One more reference to a context that is ready and idle. */
    method BeginAgain(i: nat) returns (accepted: bool)
      requires Enabled(View(), BeginNested(i))
      modifies this
      ensures View() == Next(old(View()), BeginNested(i))
    {
      var e := entries[i];
      accepted := phase == Open && e.state == Ready && e.references >= 1 && !e.active;
      if accepted {
        entries := entries[i := e.(references := e.references + 1)];
        monitor := monitor.(references := monitor.references + 1);
      }
    }

    method FinishOpening(k: nat, use: Use)
      requires k < |openings|
      modifies this`openings, this`monitor
      ensures View() == OpeningDone(old(View()), k, use)
    {
      openings := openings[k := Done(use)];
      monitor := monitor.(opening := monitor.opening - 1);
    }

    /** Publish a checked lease, or start rolling it back when it is unusable or comes too late. */
    method PublishOrRollBack(k: nat, usable: bool) returns (published: bool)
      requires Enabled(View(), LeaseChecked(k, usable))
      modifies this
      ensures View() == Next(old(View()), LeaseChecked(k, usable))
      ensures published <==> usable && old(phase) == Open
    {
      var use := openings[k].use;
      published := usable && phase == Open;
      if published {
        entries := entries + [Entry(Ready, Live, 1, false, false, use)];
        monitor := monitor.(ready := monitor.ready + 1, pinnedLeases := monitor.pinnedLeases + 1,
                            references := monitor.references + 1);
        FinishOpening(k, NotHere);
      } else {
        openings := openings[k := RollingBack(ReleasePreparing(false), use)];
      }
    }

    method StartOperation(i: nat) returns (started: bool)
      requires Enabled(View(), Run(i))
      modifies this
      ensures View() == Next(old(View()), Run(i))
    {
      var e := entries[i];
      started := phase == Open && e.state == Ready && e.references >= 1 && !e.active;
      if started {
        entries := entries[i := e.(active := true)];
        monitor := monitor.(activeOperations := monitor.activeOperations + 1);
      }
    }

    method FinishOperation(i: nat, fatal: bool)
      requires Enabled(View(), OperationEnded(i, fatal))
      modifies this
      ensures View() == Next(old(View()), OperationEnded(i, fatal))
    {
      var e := entries[i];
      monitor := monitor.(activeOperations := monitor.activeOperations - 1);
      if fatal && phase == Open && e.state == Ready {
        entries := entries[i := Entry(Fatal, ReleasePreparing(false), 0, false, true, e.use)];
        monitor := monitor.(ready := monitor.ready - 1, references := monitor.references - e.references,
                            fatalCleaning := monitor.fatalCleaning + 1);
      } else {
        entries := entries[i := e.(active := false)];
      }
    }

    method EndContext(i: nat) returns (accepted: bool)
      requires Enabled(View(), End(i))
      modifies this
      ensures View() == Next(old(View()), End(i))
    {
      var e := entries[i];
      accepted := phase == Open && e.state == Ready && !e.active && e.references >= 1;
      if !accepted {
        return;
      }
      monitor := monitor.(references := monitor.references - 1);
      if e.references > 1 {
        entries := entries[i := e.(references := e.references - 1)];
      } else {
        entries := entries[i := Entry(Ending, ResetPreparing, 0, false, e.releaseClaimed, e.use)];
        monitor := monitor.(ready := monitor.ready - 1, ending := monitor.ending + 1);
      }
    }

    method ReleaseEntry(i: nat, e: Entry, reusable: bool)
      requires i < |entries|
      modifies this
      ensures View() == ClaimRelease(old(View()), i, e, reusable)
    {
      if e.releaseClaimed {
        Close(i, e);
      } else {
        entries := entries[i := e.(releaseClaimed := true, stage := ReleasePreparing(reusable))];
      }
    }

    method Close(i: nat, e: Entry)
      requires i < |entries|
      modifies this
      ensures View() == CloseEntry(old(View()), i, e)
    {
      entries := entries[i := e.(state := Closed, stage := if e.state == Fatal then Notifying else Gone)];
      monitor := monitor.(pinnedLeases := monitor.pinnedLeases - 1);
      match e.state
      case Ending => monitor := monitor.(ending := monitor.ending - 1);
      case Leaving => monitor := monitor.(retiring := monitor.retiring - 1);
      case _ => monitor := monitor.(fatalCleaning := monitor.fatalCleaning - 1);
    }

    /** The reset after the last end(): only its success in an open runtime allows reuse. */
    method FinishReset(i: nat, ok: bool)
      requires Enabled(View(), ResetEnded(i, ok))
      modifies this
      ensures View() == Next(old(View()), ResetEnded(i, ok))
    {
      var e := entries[i];
      var use := if ok && e.use.Held? then Held(true) else e.use;
      ReleaseEntry(i, e.(use := use), ok && phase == Open);
    }

    method EvictAfterOperation(i: nat)
      requires Enabled(View(), OperationAwaited(i))
      modifies this
      ensures View() == Next(old(View()), OperationAwaited(i))
    {
      ReleaseEntry(i, entries[i], false);
    }

    /** The adapter call itself; the disposition is decided at the last instant. */
    method CallRelease(i: nat) returns (reusable: bool)
      requires Enabled(View(), SessionContext.ReleaseCalled(i))
      modifies this
      ensures View() == Next(old(View()), SessionContext.ReleaseCalled(i))
      ensures reusable <==> old(entries[i].stage.reusable) && old(phase) == Open
    {
      var e := entries[i];
      reusable := e.stage.reusable && phase == Open;
      entries := entries[i := e.(stage := ReleaseInFlight, use := HandOver(e.use, reusable, phase == Open))];
    }

    method FinishRelease(i: nat)
      requires Enabled(View(), ReleaseEnded(i))
      modifies this
      ensures View() == Next(old(View()), ReleaseEnded(i))
    {
      Close(i, entries[i]);
    }

    method ClaimRetiring(i: nat)
      requires i < |entries|
      modifies this`entries, this`monitor
      ensures entries == old(entries)[i := ClaimedForRetirement(old(entries)[i])]
      ensures monitor == ClaimedMonitor(old(monitor), old(entries)[i])
    {
      var e := entries[i];
      if e.state == Ready {
        monitor := monitor.(ready := monitor.ready - 1, retiring := monitor.retiring + 1,
                            references := monitor.references - e.references);
        entries := entries[i := e.(state := Leaving, stage := AwaitOperation, references := 0)];
      }
    }

    /** Close the gate and claim every ready context, one after another. */
    method RetireRuntime()
      modifies this
      ensures View() == Next(old(View()), Retire)
    {
      if phase != Open {
        return;
      }
      phase, awaitedOpenings, awaitedEntries := Retiring, |openings|, |entries|;
      ClaimAllReady();
    }

    method ClaimAllReady()
      modifies this`entries, this`monitor
      ensures entries == AllClaimed(old(entries)) && monitor == RetiredMonitor(old(monitor), old(entries))
    {
      ghost var before := entries;
      ghost var counted := monitor;
      for index := 0 to |entries|
        invariant |entries| == |before| && PartlyClaimed(entries, monitor, before, counted, index)
      {
        ClaimOneMore(entries, monitor, before, counted, index);
        ClaimRetiring(index);
      }
      assert before[..|before|] == before;
    }

    method CompleteRetirement()
      requires Enabled(View(), RetirementCompletes)
      modifies this`phase
      ensures View() == Next(old(View()), RetirementCompletes)
    {
      phase := Retired;
    }
  }

  ghost predicate PartlyClaimed(entries: seq<Entry>, m: Monitor, before: seq<Entry>, counted: Monitor, index: nat) {
    && index <= |before|
    && entries == AllClaimed(before[..index]) + before[index..]
    && m == RetiredMonitor(counted, before[..index])
  }

  lemma {:induction false} ClaimOneMore(entries: seq<Entry>, m: Monitor, before: seq<Entry>, counted: Monitor, index: nat)
    requires index < |before| == |entries| && PartlyClaimed(entries, m, before, counted, index)
    ensures PartlyClaimed(entries[index := ClaimedForRetirement(entries[index])], ClaimedMonitor(m, entries[index]), before, counted, index + 1)
  {
    assert before[..index + 1][..index] == before[..index];
    assert entries[index] == before[index];
  }
}
