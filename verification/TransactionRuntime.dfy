/**
 * The mutable transaction runtime: one object whose methods are the uninterrupted stretches of
 * the source's asynchronous operations. Each is proved to change the object exactly as one step
 * of the step system does, so a history of calls is a run and every theorem about runs is a
 * theorem about this object.
 */
module TransactionRuntime {
  import opened ControlReturn
  import opened Transaction

  class Runtime {
    var phase: Phase
    var outcome: Outcome
    var token: bool
    var lease: Lease
    var opening: OpeningProgress
    var call: CallProgress
    var disposition: Disposition
    var terminal: Terminal
    var quarantine: Quarantine
    var lateRelease: LateRelease
    var releaseClaimed: bool
    var lateAcquires: nat
    var lateEvictions: nat
    var acquireFailure: bool
    var commits: nat
    var rollbacks: nat
    var ambiguousFailures: nat
    /** What the adapter has seen of each lease. */
    ghost var uses: seq<Use>

    ghost function View(): State
      reads this
    {
      State(phase, outcome, token, lease, opening, call, disposition, terminal, quarantine, lateRelease, releaseClaimed,
            lateAcquires, lateEvictions, acquireFailure, commits, rollbacks, ambiguousFailures, uses)
    }

    constructor ()
      ensures IsInitial(View())
    {
      phase, outcome, token, lease := Idle, NoOutcome, false, NoLease;
      opening, call, disposition, terminal := NotOpening, NoCall, Undecided, Unclaimed;
      quarantine, lateRelease, releaseClaimed := NoQuarantine, NotStarted, false;
      lateAcquires, lateEvictions, acquireFailure := 0, 0, false;
      commits, rollbacks, ambiguousFailures := 0, 0, 0;
      uses := [];
    }

    method BeginTransaction() returns (started: bool)
      modifies this
      ensures View() == Next(old(View()), Begin)
      ensures started <==> old(phase) == Idle
    {
      started := phase == Idle;
      if started {
        phase, acquireFailure, opening := Opening, false, Acquiring;
      }
    }

    /** acquire delivered in time; a runtime that is closing by now evicts the lease at once. */
    method Acquired(acquired: nat) returns (active: bool)
      requires Enabled(View(), AcquireFulfilled) && acquired == |uses|
      modifies this
      ensures View() == Next(old(View()), AcquireFulfilled)
      ensures active <==> old(phase) == Opening
    {
      active := phase == Opening;
      if active {
        lease, token, phase, outcome, opening := Pinned(acquired), true, Active, Underway, NotOpening;
        uses := uses + [FRESH_USE];
      } else {
        opening := Evicting;
        uses := uses + [HandOver(FRESH_USE, false, NoOutcome)];
      }
    }

    method AcquireDidFail(outlived: bool)
      requires Enabled(View(), AcquireFailed(outlived))
      modifies this
      ensures View() == Next(old(View()), AcquireFailed(outlived))
    {
      opening := NotOpening;
      if outlived {
        lateAcquires := lateAcquires + 1;
      }
      if phase == Opening {
        phase := if lateAcquires + lateEvictions == 0 then Idle else Failed;
      }
    }

    method EvictionAtBeginDone(ok: bool)
      requires Enabled(View(), BeginEvictionDone(ok))
      modifies this
      ensures View() == Next(old(View()), BeginEvictionDone(ok))
    {
      opening := NotOpening;
      if !ok && phase == Closing {
        acquireFailure := true;
      }
      if phase == Opening {
        phase := if lateAcquires + lateEvictions == 0 then Idle else Failed;
      }
    }

    method SettleAcquireQuarantine()
      modifies this`phase
      ensures View() == RecoverFromAcquires(old(View()))
    {
      if lateAcquires + lateEvictions == 0 && !token && phase == Failed && !acquireFailure {
        phase := if terminal == Unclaimed then Idle else Closed;
      }
    }

    /** An acquire that outlived its bound settles; a lease that comes this late is evicted. */
    method LateAcquireSettled(delivered: bool)
      requires lateAcquires > 0
      modifies this
      ensures View() == Next(old(View()), if delivered then LateAcquireFulfilled else LateAcquireFailed)
    {
      lateAcquires := lateAcquires - 1;
      if delivered {
        lateEvictions := lateEvictions + 1;
        uses := uses + [HandOver(FRESH_USE, false, NoOutcome)];
      } else {
        SettleAcquireQuarantine();
      }
    }

    method LateEvictionSettled(ok: bool)
      requires Enabled(View(), LateEvictionDone(ok))
      modifies this
      ensures View() == Next(old(View()), LateEvictionDone(ok))
    {
      lateEvictions := lateEvictions - 1;
      if !ok {
        acquireFailure := true;
      }
      SettleAcquireQuarantine();
    }

    method StartCall() returns (started: bool)
      modifies this
      ensures View() == Next(old(View()), Call)
      ensures started <==> old(phase) == Active
    {
      started := phase == Active;
      if started {
        phase, call, disposition := Calling, CallPreparing, Undecided;
      }
    }

    method InvokeBusiness()
      requires Enabled(View(), CallMade)
      modifies this
      ensures View() == Next(old(View()), CallMade)
    {
      uses := WithUse(View(), Start(LeaseUse(View()), Business)).uses;
      call := CallInFlight;
    }

    ghost method SettleUse()
      modifies this`uses
      ensures View() == WithUse(old(View()), Settle(LeaseUse(old(View())), true))
    {
      uses := WithUse(View(), Settle(LeaseUse(View()), true)).uses;
    }

    method BusinessReturned()
      requires Enabled(View(), CallReturned)
      modifies this
      ensures View() == Next(old(View()), CallReturned)
    {
      SettleUse();
      call := NoCall;
      if phase == Closing {
        disposition := Stable;
      } else {
        phase := Active;
      }
    }

    method NoteFailure(failure: Failure)
      modifies this`quarantine, this`uses
      ensures View() == Disturbed(old(View()), failure)
    {
      if failure == SettledBadly {
        uses := WithUse(View(), Settle(LeaseUse(View()), false)).uses;
      } else if failure == Outlived {
        quarantine := Pending;
      }
    }

    method BusinessFailed(failure: Failure, timeout: bool)
      requires Enabled(View(), CallFailed(failure, timeout))
      modifies this
      ensures View() == Next(old(View()), CallFailed(failure, timeout))
    {
      NoteFailure(failure);
      if phase == Closing {
        if disposition == Undecided {
          disposition, ambiguousFailures := Uncertain, ambiguousFailures + 1;
        }
        call := NoCall;
      } else if timeout {
        EndAmbiguous();
      } else {
        call := Classifying;
      }
    }

    method FailureClassified(recoverable: bool)
      requires Enabled(View(), Classified(recoverable))
      modifies this
      ensures View() == Next(old(View()), Classified(recoverable))
    {
      if phase == Closing {
        call := NoCall;
        disposition := if recoverable then Stable else Uncertain;
        if !recoverable {
          ambiguousFailures := ambiguousFailures + 1;
        }
      } else if recoverable {
        call, phase := NoCall, Active;
      } else {
        EndAmbiguous();
      }
    }

    method EndAmbiguous()
      modifies this
      ensures View() == AmbiguousCall(old(View()))
    {
      ghost var before := View();
      call, ambiguousFailures, outcome, phase := NoCall, ambiguousFailures + 1, Ambiguous, Failed;
      assert View() == before.(call := NoCall, ambiguousFailures := ambiguousFailures, outcome := Ambiguous, phase := Failed);
      PrepareToRelease(false);
    }

    method ReleasePublished(reusable: bool)
      modifies this
      ensures View() == Handing(old(View()), reusable)
    {
      if releaseClaimed {
        lease, phase, terminal := NoLease, Closed, Finished;
      } else {
        uses := WithUse(View(), HandOver(LeaseUse(View()), reusable, outcome)).uses;
        releaseClaimed, phase, terminal := true, Releasing, HandingOver;
      }
    }

    method PrepareToRelease(reusable: bool)
      modifies this
      ensures View() == PrepareRelease(old(View()), reusable)
    {
      if quarantine == NoQuarantine {
        ReleasePublished(reusable);
      } else {
        terminal := AwaitQuarantine(reusable);
      }
    }

    method FinishControl(operation: Operation)
      modifies this
      ensures View() == StartControl(old(View()), operation)
    {
      if lease.NoLease? {
        terminal := Finished;
      } else if operation == Commit {
        phase, commits, terminal := Committing, commits + 1, ControlPreparing(Commit);
      } else {
        phase, rollbacks, terminal := RollingBack, rollbacks + 1, ControlPreparing(Rollback);
      }
    }

    method RequestCommit() returns (accepted: bool)
      modifies this
      ensures View() == Next(old(View()), CommitRequested)
      ensures accepted <==> old(phase) == Active
    {
      accepted := phase == Active;
      if accepted {
        FinishControl(Commit);
      }
    }

    method RequestRollback() returns (accepted: bool)
      modifies this
      ensures View() == Next(old(View()), RollbackRequested)
      ensures accepted <==> old(phase) == Active
    {
      accepted := phase == Active;
      if accepted {
        FinishControl(Rollback);
      }
    }

    method CancelCall() returns (accepted: bool)
      modifies this
      ensures View() == Next(old(View()), Cancel)
      ensures accepted <==> old(phase) == Calling
    {
      accepted := phase == Calling;
      if accepted {
        phase, terminal := Closing, AwaitCall;
      }
    }

    method CloseRuntime()
      modifies this
      ensures View() == Next(old(View()), Close)
    {
      if terminal != Unclaimed {
        return;
      }
      if phase == Idle || phase == Closed {
        phase, terminal := Closed, Finished;
      } else if phase == Opening || (phase == Failed && !token) {
        phase, terminal := Closing, AwaitOpening;
      } else if phase == Calling {
        phase, terminal := Closing, AwaitCall;
      } else if phase == Active {
        FinishControl(Rollback);
      }
    }

    method CloseAfterOpening()
      requires Enabled(View(), OpeningEnded)
      modifies this
      ensures View() == Next(old(View()), OpeningEnded)
    {
      if lateAcquires + lateEvictions > 0 {
        terminal := AwaitAcquires;
      } else {
        phase, terminal := if acquireFailure then Failed else Closed, Finished;
      }
    }

    /** The bounded wait for late acquires ends, with all of them settled or without. */
    method CloseAfterAcquires(settled: bool)
      requires Enabled(View(), if settled then AcquiresSettled else AcquiresOutlived)
      modifies this
      ensures View() == Next(old(View()), if settled then AcquiresSettled else AcquiresOutlived)
    {
      phase, terminal := if settled && !acquireFailure then Closed else Failed, Finished;
    }

    method CloseAfterCall()
      requires Enabled(View(), CallEnded)
      modifies this
      ensures View() == Next(old(View()), CallEnded)
    {
      if disposition == Stable {
        FinishControl(Rollback);
      } else {
        outcome := Ambiguous;
        PrepareToRelease(false);
      }
    }

    method InvokeControl()
      requires Enabled(View(), ControlMade)
      modifies this
      ensures View() == Next(old(View()), ControlMade)
    {
      uses := WithUse(View(), Start(LeaseUse(View()), Control)).uses;
      terminal := ControlInFlight(terminal.operation);
    }

    /** The control function replied: its RETURN decides between reset and eviction. */
    method ControlReplied(reply: Return)
      requires Enabled(View(), ControlReturned(reply))
      modifies this
      ensures View() == Next(old(View()), ControlReturned(reply))
    {
      var operation := terminal.operation;
      var verdict := InspectControlReturn(reply);
      uses := WithUse(View(), Settle(LeaseUse(View()), verdict == Approved)).uses;
      ConcludeControl(operation, verdict);
    }

    method ControlDidFail(failure: Failure, refused: bool)
      requires Enabled(View(), ControlFailed(failure, refused))
      modifies this
      ensures View() == Next(old(View()), ControlFailed(failure, refused))
    {
      var operation := terminal.operation;
      NoteFailure(failure);
      ConcludeControl(operation, if refused then Refused([]) else Invalid);
    }

    method ConcludeControl(operation: Operation, verdict: Verdict)
      modifies this
      ensures View() == AfterControl(old(View()), operation, verdict)
    {
      if verdict == Approved {
        outcome := if operation == Commit then Committed else RolledBack;
        phase, terminal := Resetting, ResetPreparing;
        return;
      }
      if verdict.Refused? {
        outcome := Rejected;
      } else {
        outcome, ambiguousFailures := Ambiguous, ambiguousFailures + 1;
      }
      PrepareToRelease(false);
    }

    method InvokeReset()
      requires Enabled(View(), ResetMade)
      modifies this
      ensures View() == Next(old(View()), ResetMade)
    {
      uses := WithUse(View(), Start(LeaseUse(View()), Reset)).uses;
      terminal := ResetInFlight;
    }

    method ResetDone()
      requires Enabled(View(), ResetFulfilled)
      modifies this
      ensures View() == Next(old(View()), ResetFulfilled)
    {
      uses := WithUse(View(), Settle(LeaseUse(View()), true)).uses;
      PrepareToRelease(true);
    }

    method ResetDidFail(failure: Failure)
      requires Enabled(View(), ResetFailed(failure))
      modifies this
      ensures View() == Next(old(View()), ResetFailed(failure))
    {
      NoteFailure(failure);
      PrepareToRelease(false);
    }

    method OutlivedOperationSettled()
      requires Enabled(View(), QuarantineSettled)
      modifies this
      ensures View() == Next(old(View()), QuarantineSettled)
    {
      uses := WithUse(View(), Settle(LeaseUse(View()), false)).uses;
      quarantine := Resolved;
    }

    /** The bounded wait for an outlived operation ends: release now, or leave it to a late release. */
    method ConvergenceEnded(converged: bool)
      requires Enabled(View(), if converged then QuarantineConverged else QuarantineOutlived)
      modifies this
      ensures View() == Next(old(View()), if converged then QuarantineConverged else QuarantineOutlived)
    {
      if converged {
        ReleaseConverged();
      } else {
        LeaveToLateRelease();
      }
    }

    method ReleaseConverged()
      requires Enabled(View(), QuarantineConverged)
      modifies this
      ensures View() == Next(old(View()), QuarantineConverged)
    {
      var reusable := terminal.reusable;
      quarantine := NoQuarantine;
      ReleasePublished(reusable);
    }

    method LeaveToLateRelease()
      requires Enabled(View(), QuarantineOutlived)
      modifies this
      ensures View() == Next(old(View()), QuarantineOutlived)
    {
      if lateRelease == NotStarted {
        lateRelease := Waiting;
      }
      phase, terminal := Failed, Finished;
    }

    method HandoverAcknowledged()
      requires Enabled(View(), HandoverDone)
      modifies this
      ensures View() == Next(old(View()), HandoverDone)
    {
      lease, phase, terminal := NoLease, Closed, Finished;
    }

    method StartLateRelease()
      requires Enabled(View(), LateReleaseStarts)
      modifies this
      ensures View() == Next(old(View()), LateReleaseStarts)
    {
      ReleaseLate();
    }

    method ReleaseLate()
      modifies this
      ensures View() == LateHanding(old(View()))
    {
      if releaseClaimed {
        quarantine, lease, phase, lateRelease := NoQuarantine, NoLease, Closed, LateFinished;
      } else {
        uses := WithUse(View(), HandOver(LeaseUse(View()), false, outcome)).uses;
        quarantine, releaseClaimed, phase, lateRelease := NoQuarantine, true, Releasing, LateHandover;
      }
    }

    method LateReleaseAcknowledged()
      requires Enabled(View(), LateReleaseDone)
      modifies this
      ensures View() == Next(old(View()), LateReleaseDone)
    {
      lease, phase, lateRelease := NoLease, Closed, LateFinished;
    }
  }
}
