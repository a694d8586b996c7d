/**
 * The one-shot transaction coordinator as a step system. Every step is one uninterrupted
 * stretch of the source between two awaits; which adapter call settles, fails or outlives its
 * deadline next is open, so a run is any interleaving of the steps below.
 */
module Transaction {
  import opened ControlReturn

  datatype Phase =
    Idle | Opening | Active | Calling | Committing | RollingBack | Resetting | Releasing | Closing | Failed | Closed

  datatype Outcome = NoOutcome | Underway | Committed | RolledBack | Rejected | Ambiguous

  datatype Operation = Commit | Rollback

  /** Work the adapter may be doing on a lease. */
  datatype Work = Nothing | Business | Control | Reset

  /**
   * What the adapter has seen of one lease: the unsettled work on it, the control functions
   * started, whether one was approved by its RETURN and whether a reset was fulfilled in
   * time; then the hand-over. Broken records that the adapter's rules were violated.
   */
  datatype Use =
    | Held(work: Work, controls: nat, approved: bool, reset: bool)
    | Released(reusable: bool, outcome: Outcome, approved: bool, reset: bool)
    | Broken

  const FRESH_USE := Held(Nothing, 0, false, false)

  /** One call at a time, one control function at most, and a reset only after an approved control. */
  function Start(u: Use, w: Work): Use {
    if u.Held? && u.work == Nothing && w != Nothing && (w == Control ==> u.controls == 0) && (w == Reset ==> u.approved) then
      Held(w, if w == Control then u.controls + 1 else u.controls, u.approved, u.reset)
    else Broken
  }

  function Settle(u: Use, good: bool): Use {
    if u.Held? && u.work != Nothing then
      Held(Nothing, u.controls, u.approved || (u.work == Control && good), u.reset || (u.work == Reset && good))
    else Broken
  }

  /** A lease is handed over once, idle, and as reusable only after an approved control and a reset. */
  function HandOver(u: Use, reusable: bool, outcome: Outcome): Use {
    if u.Held? && u.work == Nothing && (reusable ==> u.approved && u.reset && (outcome.Committed? || outcome.RolledBack?)) then
      Released(reusable, outcome, u.approved, u.reset)
    else Broken
  }

  datatype Lease = NoLease | Pinned(id: nat)

  /** Where begin() stands: waiting for acquire, or for the eviction of a lease it cannot use. */
  datatype OpeningProgress = NotOpening | Acquiring | Evicting

  /** Where call() stands: before the adapter call, in it, or in the caller's classifier. */
  datatype CallProgress = NoCall | CallPreparing | CallInFlight | Classifying

  datatype Disposition = Undecided | Stable | Uncertain

  /** A timed-out operation on the published lease: still unsettled, or settled since. */
  datatype Quarantine = NoQuarantine | Pending | Resolved

  datatype LateRelease = NotStarted | Waiting | LateHandover | LateFinished

  /** Where the one terminal operation stands. */
  datatype Terminal =
    | Unclaimed
    | AwaitOpening
    | AwaitAcquires
    | AwaitCall
    | ControlPreparing(operation: Operation)
    | ControlInFlight(operation: Operation)
    | ResetPreparing
    | ResetInFlight
    | AwaitQuarantine(reusable: bool)
    | HandingOver
    | Finished

  datatype State = State(
    phase: Phase,
    outcome: Outcome,
    token: bool,
    lease: Lease,
    opening: OpeningProgress,
    call: CallProgress,
    disposition: Disposition,
    terminal: Terminal,
    quarantine: Quarantine,
    lateRelease: LateRelease,
    releaseClaimed: bool,
    lateAcquires: nat,
    lateEvictions: nat,
    acquireFailure: bool,
    commits: nat,
    rollbacks: nat,
    ambiguousFailures: nat,
    uses: seq<Use>)

  /** A new runtime. */
  predicate IsInitial(s: State) {
    && s.phase == Idle && s.outcome == NoOutcome && !s.token && s.lease == NoLease && s.opening == NotOpening
    && s.call == NoCall && s.disposition == Undecided && s.terminal == Unclaimed && s.quarantine == NoQuarantine
    && s.lateRelease == NotStarted && !s.releaseClaimed && s.lateAcquires == 0 && s.lateEvictions == 0
    && !s.acquireFailure && s.commits == 0 && s.rollbacks == 0 && s.ambiguousFailures == 0 && s.uses == []
  }

  /** How a bounded adapter call failed: before it was made, by settling, or by outliving its bound. */
  datatype Failure = NotMade | SettledBadly | Outlived

  datatype Event =
    | Begin
    | AcquireFulfilled
    | AcquireFailed(outlived: bool)
    | BeginEvictionDone(ok: bool)
    | LateAcquireFailed
    | LateAcquireFulfilled
    | LateEvictionDone(ok: bool)
    | Call
    | CallMade
    | CallReturned
    | CallFailed(failure: Failure, timeout: bool)
    | Classified(recoverable: bool)
    | CommitRequested
    | RollbackRequested
    | Cancel
    | Close
    | OpeningEnded
    | AcquiresSettled
    | AcquiresOutlived
    | CallEnded
    | ControlMade
    | ControlReturned(reply: Return)
    | ControlFailed(failure: Failure, refused: bool)
    | ResetMade
    | ResetFulfilled
    | ResetFailed(failure: Failure)
    | QuarantineSettled
    | QuarantineConverged
    | QuarantineOutlived
    | HandoverDone
    | LateReleaseStarts
    | LateReleaseDone

  // ---------------------------------------------------------------- steps

  function Quarantined(s: State): nat {
    s.lateAcquires + s.lateEvictions
  }

  function LeaseUse(s: State): Use {
    if s.lease.Pinned? && s.lease.id < |s.uses| then s.uses[s.lease.id] else Broken
  }

  function WithUse(s: State, u: Use): (r: State)
    ensures r == s.(uses := r.uses)
  {
    if s.lease.Pinned? && s.lease.id < |s.uses| then s.(uses := s.uses[s.lease.id := u]) else s
  }

  /** The adapter's share of a failed call: nothing, a settlement, or work that goes on. */
  function Disturbed(s: State, f: Failure): (r: State)
    ensures r == s.(uses := r.uses, quarantine := r.quarantine)
  {
    match f
    case NotMade => s
    case SettledBadly => WithUse(s, Settle(LeaseUse(s), false))
    case Outlived => s.(quarantine := Pending)
  }

  predicate FailurePossible(f: Failure, made: bool) {
    f == NotMade <==> !made
  }

  /** A failed runtime that has pinned nothing recovers when its last late acquire is dealt with. */
  function RecoverFromAcquires(s: State): State {
    if Quarantined(s) == 0 && !s.token && s.phase == Failed && !s.acquireFailure then
      s.(phase := if s.terminal == Unclaimed then Idle else Closed)
    else s
  }

  /** begin() ends without a lease. */
  function BeginFailed(s: State): State {
    if s.phase == Opening then s.(phase := if Quarantined(s) == 0 then Idle else Failed) else s
  }

  function AfterAcquire(s: State): State {
    if s.phase == Opening then
      s.(lease := Pinned(|s.uses|), token := true, phase := Active, outcome := Underway, opening := NotOpening,
         uses := s.uses + [FRESH_USE])
    else
      s.(opening := Evicting, uses := s.uses + [HandOver(FRESH_USE, false, NoOutcome)])
  }

  function AfterCallFailed(s: State, timeout: bool): State {
    if s.phase == Closing then
      if s.disposition == Undecided then
        s.(call := NoCall, disposition := Uncertain, ambiguousFailures := s.ambiguousFailures + 1)
      else s.(call := NoCall)
    else if timeout then AmbiguousCall(s)
    else s.(call := Classifying)
  }

  function AfterClassified(s: State, recoverable: bool): State {
    if s.phase == Closing then
      if recoverable then s.(call := NoCall, disposition := Stable)
      else s.(call := NoCall, disposition := Uncertain, ambiguousFailures := s.ambiguousFailures + 1)
    else if recoverable then s.(call := NoCall, phase := Active)
    else AmbiguousCall(s)
  }

  function AmbiguousCall(s: State): State {
    ReleaseOnly(s.(call := NoCall, ambiguousFailures := s.ambiguousFailures + 1, outcome := Ambiguous, phase := Failed))
  }

  /** The terminal operation that sends the one control function. */
  function StartControl(s: State, operation: Operation): State {
    if s.lease.NoLease? then s.(terminal := Finished)
    else if operation == Commit then s.(phase := Committing, commits := s.commits + 1, terminal := ControlPreparing(Commit))
    else s.(phase := RollingBack, rollbacks := s.rollbacks + 1, terminal := ControlPreparing(Rollback))
  }

  function AfterControl(s: State, operation: Operation, verdict: Verdict): State {
    match verdict
    case Approved =>
      s.(outcome := if operation == Commit then Committed else RolledBack, phase := Resetting, terminal := ResetPreparing)
    case Refused(_) => ReleaseOnly(s.(outcome := Rejected))
    case Invalid => ReleaseOnly(s.(outcome := Ambiguous, ambiguousFailures := s.ambiguousFailures + 1))
  }

  function ReleaseOnly(s: State): (r: State)
    ensures r.outcome == s.outcome && r.commits == s.commits && r.rollbacks == s.rollbacks && r.ambiguousFailures == s.ambiguousFailures
  {
    PrepareRelease(s, false)
  }

  /** Hand over now, or first wait for the operation that outlived its bound. */
  function PrepareRelease(s: State, reusable: bool): (r: State)
    ensures r.outcome == s.outcome && r.commits == s.commits && r.rollbacks == s.rollbacks && r.ambiguousFailures == s.ambiguousFailures
  {
    if s.quarantine == NoQuarantine then Handing(s, reusable) else s.(terminal := AwaitQuarantine(reusable))
  }

  function Handing(s: State, reusable: bool): (r: State)
    ensures r.outcome == s.outcome && r.commits == s.commits && r.rollbacks == s.rollbacks && r.ambiguousFailures == s.ambiguousFailures
  {
    if s.releaseClaimed then s.(lease := NoLease, phase := Closed, terminal := Finished)
    else
      WithUse(s, HandOver(LeaseUse(s), reusable, s.outcome))
        .(releaseClaimed := true, phase := Releasing, terminal := HandingOver)
  }

  function LateHanding(s: State): (r: State)
    ensures r.outcome == s.outcome && r.commits == s.commits && r.rollbacks == s.rollbacks && r.ambiguousFailures == s.ambiguousFailures
  {
    if s.releaseClaimed then s.(quarantine := NoQuarantine, lease := NoLease, phase := Closed, lateRelease := LateFinished)
    else
      WithUse(s, HandOver(LeaseUse(s), false, s.outcome))
        .(quarantine := NoQuarantine, releaseClaimed := true, phase := Releasing, lateRelease := LateHandover)
  }

  function AfterClose(s: State): State {
    if s.terminal != Unclaimed then s
    else if s.phase == Idle || s.phase == Closed then s.(phase := Closed, terminal := Finished)
    else if s.phase == Opening || (s.phase == Failed && !s.token) then s.(phase := Closing, terminal := AwaitOpening)
    else if s.phase == Calling then s.(phase := Closing, terminal := AwaitCall)
    else if s.phase == Active then StartControl(s, Rollback)
    else s
  }

  function AfterOpeningEnded(s: State): State {
    if Quarantined(s) > 0 then s.(terminal := AwaitAcquires)
    else s.(phase := if s.acquireFailure then Failed else Closed, terminal := Finished)
  }

  function AfterCallEnded(s: State): State {
    if s.disposition == Stable then StartControl(s, Rollback) else ReleaseOnly(s.(outcome := Ambiguous))
  }

  /**
   * Which steps may come next. A classifier keeps its contract: it calls a failure
   * recoverable only when no work is left running on the session; work that outlived its bound may
   * have settled since.
   */
  predicate Enabled(s: State, e: Event) {
    match e
    case Begin | Call | CommitRequested | RollbackRequested | Cancel | Close => true
    case AcquireFulfilled => s.opening == Acquiring
    case AcquireFailed(_) => s.opening == Acquiring
    case BeginEvictionDone(_) => s.opening == Evicting
    case LateAcquireFailed | LateAcquireFulfilled => s.lateAcquires > 0
    case LateEvictionDone(_) => s.lateEvictions > 0
    case CallMade => s.call == CallPreparing && s.phase == Calling
    case CallReturned => s.call == CallInFlight
    case CallFailed(f, _) => (s.call.CallPreparing? || s.call.CallInFlight?) && FailurePossible(f, s.call == CallInFlight)
    case Classified(recoverable) => s.call == Classifying && (recoverable ==> s.quarantine != Pending)
    case OpeningEnded => s.terminal == AwaitOpening && s.opening == NotOpening
    case AcquiresSettled => s.terminal == AwaitAcquires && Quarantined(s) == 0
    case AcquiresOutlived => s.terminal == AwaitAcquires
    case CallEnded => s.terminal == AwaitCall && s.call == NoCall
    case ControlMade => s.terminal.ControlPreparing?
    case ControlReturned(_) => s.terminal.ControlInFlight?
    case ControlFailed(f, _) =>
      (s.terminal.ControlPreparing? || s.terminal.ControlInFlight?) && FailurePossible(f, s.terminal.ControlInFlight?)
    case ResetMade => s.terminal == ResetPreparing
    case ResetFulfilled => s.terminal == ResetInFlight
    case ResetFailed(f) => (s.terminal.ResetPreparing? || s.terminal.ResetInFlight?) && FailurePossible(f, s.terminal == ResetInFlight)
    case QuarantineSettled => s.quarantine == Pending
    case QuarantineConverged => s.terminal.AwaitQuarantine? && s.quarantine == Resolved
    case QuarantineOutlived => s.terminal.AwaitQuarantine?
    case HandoverDone => s.terminal == HandingOver
    case LateReleaseStarts => s.lateRelease == Waiting && s.quarantine == Resolved
    case LateReleaseDone => s.lateRelease == LateHandover
  }

  function Next(s: State, e: Event): State
    requires Enabled(s, e)
  {
    match e
    case Begin => if s.phase == Idle then s.(phase := Opening, acquireFailure := false, opening := Acquiring) else s
    case AcquireFulfilled => AfterAcquire(s)
    case AcquireFailed(outlived) =>
      BeginFailed(s.(opening := NotOpening, lateAcquires := if outlived then s.lateAcquires + 1 else s.lateAcquires))
    case BeginEvictionDone(ok) =>
      BeginFailed(s.(opening := NotOpening, acquireFailure := s.acquireFailure || (!ok && s.phase == Closing)))
    case LateAcquireFailed => RecoverFromAcquires(s.(lateAcquires := s.lateAcquires - 1))
    case LateAcquireFulfilled =>
      s.(lateAcquires := s.lateAcquires - 1, lateEvictions := s.lateEvictions + 1,
         uses := s.uses + [HandOver(FRESH_USE, false, NoOutcome)])
    case LateEvictionDone(ok) =>
      RecoverFromAcquires(s.(lateEvictions := s.lateEvictions - 1, acquireFailure := s.acquireFailure || !ok))
    case Call => if s.phase == Active then s.(phase := Calling, call := CallPreparing, disposition := Undecided) else s
    case CallMade => WithUse(s, Start(LeaseUse(s), Business)).(call := CallInFlight)
    case CallReturned =>
      var settled := WithUse(s, Settle(LeaseUse(s), true)).(call := NoCall);
      if s.phase == Closing then settled.(disposition := Stable) else settled.(phase := Active)
    case CallFailed(f, timeout) => AfterCallFailed(Disturbed(s, f), timeout)
    case Classified(recoverable) => AfterClassified(s, recoverable)
    case CommitRequested => if s.phase == Active then StartControl(s, Commit) else s
    case RollbackRequested => if s.phase == Active then StartControl(s, Rollback) else s
    case Cancel => if s.phase == Calling then s.(phase := Closing, terminal := AwaitCall) else s
    case Close => AfterClose(s)
    case OpeningEnded => AfterOpeningEnded(s)
    case AcquiresSettled => s.(phase := if s.acquireFailure then Failed else Closed, terminal := Finished)
    case AcquiresOutlived => s.(phase := Failed, terminal := Finished)
    case CallEnded => AfterCallEnded(s)
    case ControlMade => WithUse(s, Start(LeaseUse(s), Control)).(terminal := ControlInFlight(s.terminal.operation))
    case ControlReturned(reply) =>
      AfterControl(WithUse(s, Settle(LeaseUse(s), Judged(reply) == Approved)), s.terminal.operation, Judged(reply))
    case ControlFailed(f, refused) =>
      AfterControl(Disturbed(s, f), s.terminal.operation, if refused then Refused([]) else Invalid)
    case ResetMade => WithUse(s, Start(LeaseUse(s), Reset)).(terminal := ResetInFlight)
    case ResetFulfilled => PrepareRelease(WithUse(s, Settle(LeaseUse(s), true)), true)
    case ResetFailed(f) => PrepareRelease(Disturbed(s, f), false)
    case QuarantineSettled => WithUse(s, Settle(LeaseUse(s), false)).(quarantine := Resolved)
    case QuarantineConverged => Handing(s.(quarantine := NoQuarantine), s.terminal.reusable)
    case QuarantineOutlived =>
      s.(lateRelease := if s.lateRelease == NotStarted then Waiting else s.lateRelease, phase := Failed, terminal := Finished)
    case HandoverDone => s.(lease := NoLease, phase := Closed, terminal := Finished)
    case LateReleaseStarts => LateHanding(s)
    case LateReleaseDone => s.(lease := NoLease, phase := Closed, lateRelease := LateFinished)
  }

  // ---------------------------------------------------------------- the invariant

  function Controls(s: State): nat {
    s.commits + s.rollbacks
  }

  predicate TerminalOutcome(o: Outcome) {
    (o.Committed? || o.RolledBack? || o.Rejected? || o.Ambiguous?)
  }

  /** A hand-over follows the adapter's rules. */
  predicate SoundUse(u: Use) {
    !u.Broken? && (u.Released? && u.reusable ==> u.approved && u.reset && (u.outcome.Committed? || u.outcome.RolledBack?))
  }

  /** Every lease but the pinned one has been handed over. */
  ghost predicate UsesSound(s: State) {
    forall i :: 0 <= i < |s.uses| ==> SoundUse(s.uses[i]) && (s.uses[i].Released? || s.lease == Pinned(i))
  }

  /** The pinned lease as the adapter sees it. */
  predicate Holds(s: State, w: Work, controls: nat) {
    LeaseUse(s).Held? && LeaseUse(s).work == w && LeaseUse(s).controls == controls
  }

  /** Work runs on a lease outside a bounded call exactly while the quarantine is pending. */
  predicate QuarantineShown(s: State) {
    LeaseUse(s).Held? && (s.quarantine == Pending <==> LeaseUse(s).work != Nothing)
  }

  predicate NotYetReleasing(s: State) {
    !s.releaseClaimed && s.lateRelease == NotStarted && s.lease.Pinned?
  }

  predicate BeforeControl(s: State) {
    && NotYetReleasing(s) && Controls(s) == 0 && s.outcome == Underway
    && LeaseUse(s).Held? && LeaseUse(s).controls == 0
  }

  predicate CallUnderway(s: State) {
    match s.call
    case NoCall => false
    case CallPreparing => s.quarantine != Pending && Holds(s, Nothing, 0)
    case CallInFlight => s.quarantine != Pending && Holds(s, Business, 0)
    case Classifying => QuarantineShown(s)
  }

  /** Before begin() has published a lease. */
  predicate UnpublishedInvariant(s: State) {
    && s.lease == NoLease && s.call == NoCall && s.quarantine == NoQuarantine && s.lateRelease == NotStarted
    && !s.releaseClaimed && Controls(s) == 0 && s.ambiguousFailures == 0 && s.outcome == NoOutcome && s.disposition == Undecided
    && match s.terminal
       case Unclaimed =>
         && (s.phase.Idle? || s.phase.Opening? || s.phase.Failed?)
         && (s.phase == Opening <==> s.opening == Acquiring) && s.opening != Evicting
         && ((s.phase.Idle? || s.phase.Opening?) ==> Quarantined(s) == 0)
       case AwaitOpening => s.phase == Closing
       case AwaitAcquires => s.phase == Closing && s.opening == NotOpening
       case Finished => (s.phase.Failed? || s.phase.Closed?) && s.opening == NotOpening && (s.phase == Closed ==> Quarantined(s) == 0)
       case _ => false
  }

  predicate FinishedInvariant(s: State) {
    match s.lateRelease
    case NotStarted => s.phase == Closed && s.lease == NoLease && s.releaseClaimed && s.quarantine == NoQuarantine
    case Waiting => s.phase == Failed && s.lease.Pinned? && !s.releaseClaimed && s.quarantine != NoQuarantine && QuarantineShown(s)
    case LateHandover => s.phase == Releasing && s.releaseClaimed && LeaseUse(s).Released? && s.quarantine == NoQuarantine
    case LateFinished => s.phase == Closed && s.lease == NoLease && s.releaseClaimed && s.quarantine == NoQuarantine
  }

  /** A completed unit of work was completed by the control function that was asked for. */
  predicate OutcomeFits(s: State) {
    (s.outcome == Committed ==> s.commits == 1) && (s.outcome == RolledBack ==> s.rollbacks == 1)
  }

  /** What a reusable hand-over needs. */
  predicate Reusable(s: State) {
    LeaseUse(s).Held? && LeaseUse(s).approved && LeaseUse(s).reset && (s.outcome.Committed? || s.outcome.RolledBack?)
  }

  predicate ClaimedPhase(p: Phase) {
    (p.Committing? || p.RollingBack? || p.Resetting? || p.Failed? || p.Closing?)
  }

  /** After begin() has published its lease. */
  predicate PublishedInvariant(s: State) {
    && s.opening == NotOpening && Quarantined(s) == 0 && Controls(s) <= 1
    && OutcomeFits(s)
    && match s.terminal
       case Unclaimed =>
         && BeforeControl(s) && s.ambiguousFailures == 0 && s.disposition == Undecided
         && (|| (s.phase == Active && s.call == NoCall && s.quarantine != Pending && Holds(s, Nothing, 0))
             || (s.phase == Calling && CallUnderway(s)))
       case AwaitCall =>
         && BeforeControl(s) && s.phase == Closing
         && (s.ambiguousFailures > 0 ==> s.disposition == Uncertain)
         && (|| (s.disposition == Undecided && CallUnderway(s))
             || (s.disposition == Uncertain && s.call == NoCall && QuarantineShown(s))
             || (s.disposition == Stable && s.call == NoCall && s.quarantine != Pending && Holds(s, Nothing, 0)))
       case ControlPreparing(operation) =>
         && NotYetReleasing(s) && s.call == NoCall && s.quarantine != Pending && Holds(s, Nothing, 0)
         && Controls(s) == 1 && s.outcome == Underway && s.ambiguousFailures == 0
         && (if operation == Commit then s.phase == Committing && s.commits == 1 else s.phase == RollingBack && s.rollbacks == 1)
       case ControlInFlight(operation) =>
         && NotYetReleasing(s) && s.call == NoCall && s.quarantine != Pending && Holds(s, Control, 1)
         && Controls(s) == 1 && s.outcome == Underway && s.ambiguousFailures == 0
         && (if operation == Commit then s.phase == Committing && s.commits == 1 else s.phase == RollingBack && s.rollbacks == 1)
       case ResetPreparing =>
         && NotYetReleasing(s) && s.call == NoCall && s.quarantine != Pending && Holds(s, Nothing, 1)
         && LeaseUse(s).approved && (s.outcome.Committed? || s.outcome.RolledBack?) && s.phase == Resetting && s.ambiguousFailures == 0
       case ResetInFlight =>
         && NotYetReleasing(s) && s.call == NoCall && s.quarantine != Pending && Holds(s, Reset, 1)
         && LeaseUse(s).approved && (s.outcome.Committed? || s.outcome.RolledBack?) && s.phase == Resetting && s.ambiguousFailures == 0
       case AwaitQuarantine(reusable) =>
         && NotYetReleasing(s) && s.call == NoCall && s.quarantine != NoQuarantine && QuarantineShown(s)
         && (reusable ==> s.quarantine == Resolved && Reusable(s)) && TerminalOutcome(s.outcome) && ClaimedPhase(s.phase)
       case HandingOver =>
         && s.call == NoCall && s.releaseClaimed && s.lateRelease == NotStarted && LeaseUse(s).Released?
         && s.quarantine == NoQuarantine && s.phase == Releasing && TerminalOutcome(s.outcome)
       case Finished => s.call == NoCall && FinishedInvariant(s) && TerminalOutcome(s.outcome)
       case _ => false
  }

  ghost predicate Invariant(s: State) {
    UsesSound(s) && if s.token then PublishedInvariant(s) else UnpublishedInvariant(s)
  }

  // ---------------------------------------------------------------- every step keeps it

  lemma {:induction false} HandingKeepsInvariant(s: State, reusable: bool)
    requires UsesSound(s) && s.token && s.opening == NotOpening && Quarantined(s) == 0 && Controls(s) <= 1 && OutcomeFits(s)
    requires NotYetReleasing(s) && s.call == NoCall && s.quarantine == NoQuarantine && TerminalOutcome(s.outcome)
    requires LeaseUse(s).Held? && LeaseUse(s).work == Nothing
    requires reusable ==> Reusable(s)
    ensures Invariant(Handing(s, reusable))
  {}

  lemma {:induction false} PreparingKeepsInvariant(s: State, reusable: bool)
    requires UsesSound(s) && s.token && s.opening == NotOpening && Quarantined(s) == 0 && Controls(s) <= 1 && OutcomeFits(s)
    requires NotYetReleasing(s) && s.call == NoCall && QuarantineShown(s) && TerminalOutcome(s.outcome)
    requires s.quarantine != NoQuarantine ==> ClaimedPhase(s.phase)
    requires reusable ==> s.quarantine != Pending
    requires reusable ==> Reusable(s)
    ensures Invariant(PrepareRelease(s, reusable))
  {
    if s.quarantine == NoQuarantine {
      HandingKeepsInvariant(s, reusable);
    }
  }

  lemma {:induction false} StartControlKeepsInvariant(s: State, operation: Operation)
    requires UsesSound(s) && s.token && s.opening == NotOpening && Quarantined(s) == 0
    requires BeforeControl(s) && s.ambiguousFailures == 0 && s.call == NoCall && s.quarantine != Pending && Holds(s, Nothing, 0)
    ensures Invariant(StartControl(s, operation))
  {}

  lemma {:induction false} AmbiguousCallKeepsInvariant(s: State)
    requires UsesSound(s) && s.token && s.opening == NotOpening && Quarantined(s) == 0
    requires BeforeControl(s) && QuarantineShown(s)
    ensures Invariant(AmbiguousCall(s))
  {
    PreparingKeepsInvariant(
      s.(call := NoCall, ambiguousFailures := s.ambiguousFailures + 1, outcome := Ambiguous, phase := Failed), false);
  }

  /** A failure leaves the lease idle, or busy in quarantine. */
  lemma {:induction false} DisturbanceShowsQuarantine(s: State, f: Failure)
    requires UsesSound(s) && s.lease.Pinned? && s.quarantine != Pending && LeaseUse(s).Held?
    requires FailurePossible(f, LeaseUse(s).work != Nothing)
    ensures
      var after := Disturbed(s, f);
      && UsesSound(after) && QuarantineShown(after)
      && LeaseUse(after).controls == LeaseUse(s).controls && (LeaseUse(s).approved ==> LeaseUse(after).approved)
      && after == s.(quarantine := after.quarantine, uses := after.uses)
      && |after.uses| == |s.uses|
  {}

  lemma {:induction false} CallFailureKeepsInvariant(s: State, f: Failure, timeout: bool)
    requires Invariant(s) && Enabled(s, CallFailed(f, timeout))
    ensures Invariant(Next(s, CallFailed(f, timeout)))
  {
    DisturbanceShowsQuarantine(s, f);
    if s.phase == Calling && timeout {
      AmbiguousCallKeepsInvariant(Disturbed(s, f));
    }
  }

  lemma {:induction false} ClassifiedKeepsInvariant(s: State, recoverable: bool)
    requires Invariant(s) && Enabled(s, Classified(recoverable))
    ensures Invariant(Next(s, Classified(recoverable)))
  {
    if s.phase == Calling && !recoverable {
      AmbiguousCallKeepsInvariant(s);
    }
  }

  lemma {:induction false} CallEndedKeepsInvariant(s: State)
    requires Invariant(s) && Enabled(s, CallEnded)
    ensures Invariant(Next(s, CallEnded))
  {
    if s.disposition == Stable {
      StartControlKeepsInvariant(s, Rollback);
    } else {
      PreparingKeepsInvariant(s.(outcome := Ambiguous), false);
    }
  }

  lemma {:induction false} AfterControlKeepsInvariant(s: State, operation: Operation, verdict: Verdict)
    requires UsesSound(s) && s.token && s.opening == NotOpening && Quarantined(s) == 0 && Controls(s) == 1
    requires NotYetReleasing(s) && s.call == NoCall && QuarantineShown(s) && s.ambiguousFailures == 0
    requires LeaseUse(s).controls <= 1 && (s.phase.Committing? || s.phase.RollingBack?) && s.outcome == Underway
    requires if operation == Commit then s.commits == 1 else s.rollbacks == 1
    requires verdict == Approved ==> s.quarantine != Pending && LeaseUse(s).approved && LeaseUse(s).controls == 1
    ensures Invariant(AfterControl(s, operation, verdict))
  {
    match verdict
    case Approved =>
    case Refused(_) => PreparingKeepsInvariant(s.(outcome := Rejected), false);
    case Invalid => PreparingKeepsInvariant(s.(outcome := Ambiguous, ambiguousFailures := s.ambiguousFailures + 1), false);
  }

  predicate OpeningEvent(e: Event) {
    e.Begin? || e.AcquireFulfilled? || e.AcquireFailed? || e.BeginEvictionDone? || e.OpeningEnded?
  }

  lemma {:induction false} OpeningStepKeepsInvariant(s: State, e: Event)
    requires Invariant(s) && Enabled(s, e) && OpeningEvent(e)
    ensures Invariant(Next(s, e))
  {}

  predicate LateAcquireEvent(e: Event) {
    e.LateAcquireFailed? || e.LateAcquireFulfilled? || e.LateEvictionDone? || e.AcquiresSettled? || e.AcquiresOutlived?
  }

  lemma {:induction false} LateAcquireStepKeepsInvariant(s: State, e: Event)
    requires Invariant(s) && Enabled(s, e) && LateAcquireEvent(e)
    ensures Invariant(Next(s, e))
  {}

  predicate CallEvent(e: Event) {
    e.Call? || e.CallMade? || e.CallReturned?
  }

  lemma {:induction false} CallStepKeepsInvariant(s: State, e: Event)
    requires Invariant(s) && Enabled(s, e) && CallEvent(e)
    ensures Invariant(Next(s, e))
  {
    if e.CallMade? {
      CallMadeKeepsInvariant(s);
    } else if e.CallReturned? {
      CallReturnedKeepsInvariant(s);
    }
  }

  lemma {:induction false} CallMadeKeepsInvariant(s: State)
    requires Invariant(s) && Enabled(s, CallMade)
    ensures Invariant(Next(s, CallMade))
  {}

  lemma {:induction false} CallReturnedKeepsInvariant(s: State)
    requires Invariant(s) && Enabled(s, CallReturned)
    ensures Invariant(Next(s, CallReturned))
  {}

  predicate RequestEvent(e: Event) {
    e.CommitRequested? || e.RollbackRequested? || e.Cancel? || e.Close?
  }

  lemma {:induction false} RequestKeepsInvariant(s: State, e: Event)
    requires Invariant(s) && Enabled(s, e) && RequestEvent(e)
    ensures Invariant(Next(s, e))
  {
    if s.phase == Active && s.token && s.terminal == Unclaimed && !e.Cancel? {
      StartControlKeepsInvariant(s, if e.CommitRequested? then Commit else Rollback);
    }
  }

  lemma {:induction false} ControlReturnedKeepsInvariant(s: State, reply: Return)
    requires Invariant(s) && Enabled(s, ControlReturned(reply))
    ensures Invariant(Next(s, ControlReturned(reply)))
  {
    AfterControlKeepsInvariant(WithUse(s, Settle(LeaseUse(s), Judged(reply) == Approved)), s.terminal.operation, Judged(reply));
  }

  lemma {:induction false} ControlFailedKeepsInvariant(s: State, f: Failure, refused: bool)
    requires Invariant(s) && Enabled(s, ControlFailed(f, refused))
    ensures Invariant(Next(s, ControlFailed(f, refused)))
  {
    DisturbanceShowsQuarantine(s, f);
    AfterControlKeepsInvariant(Disturbed(s, f), s.terminal.operation, if refused then Refused([]) else Invalid);
  }

  lemma {:induction false} ResetFulfilledKeepsInvariant(s: State)
    requires Invariant(s) && Enabled(s, ResetFulfilled)
    ensures Invariant(Next(s, ResetFulfilled))
  {
    PreparingKeepsInvariant(WithUse(s, Settle(LeaseUse(s), true)), true);
  }

  lemma {:induction false} ResetFailedKeepsInvariant(s: State, f: Failure)
    requires Invariant(s) && Enabled(s, ResetFailed(f))
    ensures Invariant(Next(s, ResetFailed(f)))
  {
    DisturbanceShowsQuarantine(s, f);
    PreparingKeepsInvariant(Disturbed(s, f), false);
  }

  predicate MadeEvent(e: Event) {
    e.ControlMade? || e.ResetMade?
  }

  lemma {:induction false} MadeKeepsInvariant(s: State, e: Event)
    requires Invariant(s) && Enabled(s, e) && MadeEvent(e)
    ensures Invariant(Next(s, e))
  {}

  predicate QuarantineEvent(e: Event) {
    e.QuarantineSettled? || e.QuarantineConverged? || e.QuarantineOutlived?
  }

  lemma {:induction false} QuarantineStepKeepsInvariant(s: State, e: Event)
    requires Invariant(s) && Enabled(s, e) && QuarantineEvent(e)
    ensures Invariant(Next(s, e))
  {
    if e.QuarantineConverged? {
      HandingKeepsInvariant(s.(quarantine := NoQuarantine), s.terminal.reusable);
    }
  }

  predicate ReleaseEvent(e: Event) {
    e.HandoverDone? || e.LateReleaseStarts? || e.LateReleaseDone?
  }

  lemma {:induction false} ReleaseStepKeepsInvariant(s: State, e: Event)
    requires Invariant(s) && Enabled(s, e) && ReleaseEvent(e)
    ensures Invariant(Next(s, e))
  {}

  lemma {:induction false} StepKeepsInvariant(s: State, e: Event)
    requires Invariant(s) && Enabled(s, e)
    ensures Invariant(Next(s, e))
  {
    if OpeningEvent(e) {
      OpeningStepKeepsInvariant(s, e);
    } else if LateAcquireEvent(e) {
      LateAcquireStepKeepsInvariant(s, e);
    } else if CallEvent(e) {
      CallStepKeepsInvariant(s, e);
    } else if RequestEvent(e) {
      RequestKeepsInvariant(s, e);
    } else if MadeEvent(e) {
      MadeKeepsInvariant(s, e);
    } else if QuarantineEvent(e) {
      QuarantineStepKeepsInvariant(s, e);
    } else if ReleaseEvent(e) {
      ReleaseStepKeepsInvariant(s, e);
    } else {
      OutcomeStepKeepsInvariant(s, e);
    }
  }

  predicate OutcomeEvent(e: Event) {
    e.CallFailed? || e.Classified? || e.CallEnded? || e.ControlReturned? || e.ControlFailed? || e.ResetFulfilled? || e.ResetFailed?
  }

  lemma {:induction false} OutcomeStepKeepsInvariant(s: State, e: Event)
    requires Invariant(s) && Enabled(s, e) && OutcomeEvent(e)
    ensures Invariant(Next(s, e))
  {
    match e
    case CallFailed(f, timeout) => CallFailureKeepsInvariant(s, f, timeout);
    case Classified(recoverable) => ClassifiedKeepsInvariant(s, recoverable);
    case CallEnded => CallEndedKeepsInvariant(s);
    case ControlReturned(reply) => ControlReturnedKeepsInvariant(s, reply);
    case ControlFailed(f, refused) => ControlFailedKeepsInvariant(s, f, refused);
    case ResetFulfilled => ResetFulfilledKeepsInvariant(s);
    case ResetFailed(f) => ResetFailedKeepsInvariant(s, f);
  }

  // ---------------------------------------------------------------- runs

  ghost predicate Run(s: State, events: seq<Event>)
    decreases |events|
  {
    events == [] || (Enabled(s, events[0]) && Run(Next(s, events[0]), events[1..]))
  }

  ghost function After(s: State, events: seq<Event>): State
    requires Run(s, events)
    decreases |events|
  {
    if events == [] then s else After(Next(s, events[0]), events[1..])
  }

  lemma {:induction false} RunKeepsInvariant(s: State, events: seq<Event>)
    requires Invariant(s) && Run(s, events)
    ensures Invariant(After(s, events))
    decreases |events|
  {
    if events != [] {
      StepKeepsInvariant(s, events[0]);
      RunKeepsInvariant(Next(s, events[0]), events[1..]);
    }
  }

  ghost predicate RunTo(start: State, events: seq<Event>, s: State) {
    IsInitial(start) && Run(start, events) && After(start, events) == s
  }

  /** Some run of a new runtime ends in this state. */
  ghost predicate Reachable(s: State) {
    exists start, events :: RunTo(start, events, s)
  }

  lemma {:induction false} InitialInvariant(s: State)
    requires IsInitial(s)
    ensures Invariant(s)
  {}

  lemma {:induction false} ReachableInvariant(s: State)
    requires Reachable(s)
    ensures Invariant(s)
  {
    var start, events :| RunTo(start, events, s);
    InitialInvariant(start);
    RunKeepsInvariant(start, events);
  }

  /**
   * In every run the adapter's rules hold for every lease, late ones included: no two pieces
   * of work at once, at most one control function, a reset only after an approved one, no
   * hand-over while work is unsettled, nothing after the hand-over, and a reusable hand-over
   * only of a committed or rolled-back unit of work after a fulfilled reset.
   */
  lemma {:induction false} LeaseRulesHold(s: State)
    requires Reachable(s)
    ensures forall i :: 0 <= i < |s.uses| ==> SoundUse(s.uses[i])
    ensures Controls(s) <= 1
    ensures (s.outcome == Committed ==> s.commits == 1) && (s.outcome == RolledBack ==> s.rollbacks == 1)
  {
    ReachableInvariant(s);
  }

  /** Once closed, every lease that was ever acquired has been handed over, and none is still to come. */
  lemma {:induction false} ClosedHasReleasedAll(s: State)
    requires Reachable(s) && s.phase == Closed
    ensures Quarantined(s) == 0 && s.opening == NotOpening && s.quarantine == NoQuarantine
    ensures forall i :: 0 <= i < |s.uses| ==> s.uses[i].Released?
  {
    ReachableInvariant(s);
  }

  lemma {:induction false} ClosedStaysClosed(s: State, events: seq<Event>)
    requires Invariant(s) && s.phase == Closed && s.terminal == Finished && Run(s, events)
    ensures After(s, events).phase == Closed && After(s, events).uses == s.uses
    decreases |events|
  {
    if events != [] {
      ClosedStep(s, events[0]);
      StepKeepsInvariant(s, events[0]);
      ClosedStaysClosed(Next(s, events[0]), events[1..]);
    }
  }

  lemma {:induction false} ClosedStep(s: State, e: Event)
    requires Invariant(s) && s.phase == Closed && s.terminal == Finished && Enabled(s, e)
    ensures Next(s, e) == s
  {}

  /** A terminal outcome never changes, and no control function follows it. */
  lemma {:induction false} TerminalOutcomeIsFinal(s: State, events: seq<Event>)
    requires Invariant(s) && TerminalOutcome(s.outcome) && Run(s, events)
    ensures
      var after := After(s, events);
      after.outcome == s.outcome && after.commits == s.commits && after.rollbacks == s.rollbacks
    decreases |events|
  {
    if events != [] {
      TerminalStep(s, events[0]);
      StepKeepsInvariant(s, events[0]);
      TerminalOutcomeIsFinal(Next(s, events[0]), events[1..]);
    }
  }

  lemma {:induction false} TerminalStep(s: State, e: Event)
    requires Invariant(s) && TerminalOutcome(s.outcome) && Enabled(s, e)
    ensures Next(s, e).outcome == s.outcome && Next(s, e).commits == s.commits && Next(s, e).rollbacks == s.rollbacks
  {}

  /** After an ambiguous failure no control function is ever sent. */
  lemma {:induction false} NoControlAfterAmbiguity(s: State, events: seq<Event>)
    requires Invariant(s) && s.ambiguousFailures > 0 && Run(s, events)
    ensures After(s, events).commits == s.commits && After(s, events).rollbacks == s.rollbacks
    decreases |events|
  {
    if events != [] {
      AmbiguousStep(s, events[0]);
      StepKeepsInvariant(s, events[0]);
      NoControlAfterAmbiguity(Next(s, events[0]), events[1..]);
    }
  }

  lemma {:induction false} AmbiguousStep(s: State, e: Event)
    requires Invariant(s) && s.ambiguousFailures > 0 && Enabled(s, e)
    ensures Next(s, e).commits == s.commits && Next(s, e).rollbacks == s.rollbacks && Next(s, e).ambiguousFailures > 0
  {}

  predicate CompletedOutcome(o: Outcome) {
    (o.Committed? || o.RolledBack?)
  }

  predicate ApprovedReply(e: Event) {
    e.ControlReturned? && Judged(e.reply) == Approved
  }

  /** A unit of work counts as completed only because a reply with an approved RETURN arrived. */
  lemma {:induction false} CompletionNeedsApproval(s: State, events: seq<Event>)
    requires Run(s, events) && !CompletedOutcome(s.outcome) && CompletedOutcome(After(s, events).outcome)
    ensures exists i :: 0 <= i < |events| && ApprovedReply(events[i])
    decreases |events|
  {
    if !CompletedOutcome(Next(s, events[0]).outcome) {
      CompletionNeedsApproval(Next(s, events[0]), events[1..]);
      var i :| 0 <= i < |events[1..]| && ApprovedReply(events[1..][i]);
      assert ApprovedReply(events[i + 1]);
    } else {
      CompletionStep(s, events[0]);
      assert ApprovedReply(events[0]);
    }
  }

  lemma {:induction false} CompletionStep(s: State, e: Event)
    requires Enabled(s, e) && !CompletedOutcome(s.outcome) && CompletedOutcome(Next(s, e).outcome)
    ensures ApprovedReply(e)
  {
    if !OutcomeEvent(e) {
      OutcomeIsKept(s, e);
    } else if !e.ControlReturned? {
      OutcomeIsNoCompletion(s, e);
    }
  }

  lemma {:induction false} OutcomeIsKept(s: State, e: Event)
    requires Enabled(s, e) && !OutcomeEvent(e)
    ensures Next(s, e).outcome == s.outcome || Next(s, e).outcome == Underway
  {}

  lemma {:induction false} OutcomeIsNoCompletion(s: State, e: Event)
    requires Enabled(s, e) && OutcomeEvent(e) && !e.ControlReturned?
    ensures Next(s, e).outcome == s.outcome || !CompletedOutcome(Next(s, e).outcome)
  {}

  /** What was handed over is never touched again. */
  lemma {:induction false} HandedOverIsFinal(s: State, events: seq<Event>, i: nat)
    requires Invariant(s) && Run(s, events) && i < |s.uses| && s.uses[i].Released?
    ensures i < |After(s, events).uses| && After(s, events).uses[i] == s.uses[i]
    decreases |events|
  {
    if events != [] {
      StepKeepsInvariant(s, events[0]);
      HandedOverStep(s, events[0], i);
      HandedOverIsFinal(Next(s, events[0]), events[1..], i);
    }
  }

  lemma {:induction false} HandedOverStep(s: State, e: Event, i: nat)
    requires Invariant(s) && Enabled(s, e) && i < |s.uses| && s.uses[i].Released?
    ensures i < |Next(s, e).uses| && Next(s, e).uses[i] == s.uses[i]
  {
    if s.lease == Pinned(i) {
      ReleasedLeaseIsLeftAlone(s, e);
    } else {
      OtherLeasesAreLeftAlone(s, e, i);
    }
  }

  lemma {:induction false} ReleasedLeaseIsLeftAlone(s: State, e: Event)
    requires Invariant(s) && Enabled(s, e) && LeaseUse(s).Released?
    ensures Next(s, e).uses == s.uses
  {}

  ghost predicate SameUse(s: State, after: State, i: nat) {
    i < |s.uses| && i < |after.uses| && after.uses[i] == s.uses[i]
  }

  lemma {:induction false} OtherLeasesAreLeftAlone(s: State, e: Event, i: nat)
    requires Enabled(s, e) && i < |s.uses| && s.lease != Pinned(i)
    ensures SameUse(s, Next(s, e), i)
  {
    if OutcomeEvent(e) {
      OutcomesLeaveOtherLeases(s, e, i);
    } else if OpeningEvent(e) || LateAcquireEvent(e) {
      AcquiresLeaveOtherLeases(s, e, i);
    } else {
      RestLeavesOtherLeases(s, e, i);
    }
  }

  lemma {:induction false} OutcomesLeaveOtherLeases(s: State, e: Event, i: nat)
    requires Enabled(s, e) && OutcomeEvent(e) && i < |s.uses| && s.lease != Pinned(i)
    ensures SameUse(s, Next(s, e), i)
  {
    if e.CallFailed? || e.Classified? || e.CallEnded? {
      CallEndingLeavesOthers(s, e, i);
      return;
    }
    match e
    case ControlReturned(reply) =>
      ControlLeavesOthers(WithUse(s, Settle(LeaseUse(s), Judged(reply) == Approved)), s.terminal.operation, Judged(reply), i);
    case ControlFailed(f, refused) =>
      ControlLeavesOthers(Disturbed(s, f), s.terminal.operation, if refused then Refused([]) else Invalid, i);
    case ResetFulfilled => PreparingLeavesOthers(WithUse(s, Settle(LeaseUse(s), true)), true, i);
    case ResetFailed(f) => PreparingLeavesOthers(Disturbed(s, f), false, i);
  }

  lemma {:induction false} CallEndingLeavesOthers(s: State, e: Event, i: nat)
    requires Enabled(s, e) && (e.CallFailed? || e.Classified? || e.CallEnded?) && i < |s.uses| && s.lease != Pinned(i)
    ensures SameUse(s, Next(s, e), i)
  {
    match e
    case CallFailed(f, timeout) => AmbiguousCallLeavesOthers(Disturbed(s, f), i);
    case Classified(_) => AmbiguousCallLeavesOthers(s, i);
    case CallEnded => CallEndedLeavesOthers(s, i);
  }

  lemma {:induction false} CallEndedLeavesOthers(s: State, i: nat)
    requires i < |s.uses| && s.lease != Pinned(i)
    ensures SameUse(s, AfterCallEnded(s), i)
  {
    PreparingLeavesOthers(s.(outcome := Ambiguous), false, i);
  }

  lemma {:induction false} PreparingLeavesOthers(s: State, reusable: bool, i: nat)
    requires i < |s.uses| && s.lease != Pinned(i)
    ensures SameUse(s, PrepareRelease(s, reusable), i)
  {}

  lemma {:induction false} AmbiguousCallLeavesOthers(s: State, i: nat)
    requires i < |s.uses| && s.lease != Pinned(i)
    ensures SameUse(s, AmbiguousCall(s), i)
  {
    PreparingLeavesOthers(
      s.(call := NoCall, ambiguousFailures := s.ambiguousFailures + 1, outcome := Ambiguous, phase := Failed), false, i);
  }

  lemma {:induction false} ControlLeavesOthers(s: State, operation: Operation, verdict: Verdict, i: nat)
    requires i < |s.uses| && s.lease != Pinned(i)
    ensures SameUse(s, AfterControl(s, operation, verdict), i)
  {
    PreparingLeavesOthers(s.(outcome := Rejected), false, i);
    PreparingLeavesOthers(s.(outcome := Ambiguous, ambiguousFailures := s.ambiguousFailures + 1), false, i);
  }

  lemma {:induction false} AcquiresLeaveOtherLeases(s: State, e: Event, i: nat)
    requires Enabled(s, e) && (OpeningEvent(e) || LateAcquireEvent(e)) && i < |s.uses| && s.lease != Pinned(i)
    ensures SameUse(s, Next(s, e), i)
  {}

  lemma {:induction false} RestLeavesOtherLeases(s: State, e: Event, i: nat)
    requires Enabled(s, e) && !OutcomeEvent(e) && !OpeningEvent(e) && !LateAcquireEvent(e)
    requires i < |s.uses| && s.lease != Pinned(i)
    ensures SameUse(s, Next(s, e), i)
  {}

  // ---------------------------------------------------------------- no lease is stranded

  predicate HoldsLease(s: State) {
    LeaseUse(s).Held?
  }

  /** The next step towards giving the lease back: the owner closes, and work that is out settles. */
  function Towards(s: State): Event {
    match s.terminal
    case Unclaimed => Close
    case AwaitCall =>
      if s.call == CallPreparing then CallFailed(NotMade, false)
      else if s.call == CallInFlight then CallReturned
      else if s.call == Classifying then Classified(false)
      else CallEnded
    case ControlPreparing(_) => ControlFailed(NotMade, false)
    case ControlInFlight(_) => ControlReturned(NoReturn)
    case ResetPreparing => ResetFailed(NotMade)
    case ResetInFlight => ResetFulfilled
    case AwaitQuarantine(_) => if s.quarantine == Pending then QuarantineSettled else QuarantineConverged
    case _ => if s.quarantine == Pending then QuarantineSettled else LateReleaseStarts
  }

  function Distance(s: State): nat {
    match s.terminal
    case Unclaimed => 7
    case AwaitCall => if s.call == NoCall then 5 else 6
    case ControlPreparing(_) | ControlInFlight(_) | ResetPreparing | ResetInFlight => 4
    case AwaitQuarantine(_) => if s.quarantine == Pending then 3 else 2
    case _ => if s.quarantine == Pending then 3 else 2
  }

  lemma {:induction false} TowardsIsPossible(s: State)
    requires Invariant(s) && HoldsLease(s)
    ensures Enabled(s, Towards(s))
    ensures HoldsLease(Next(s, Towards(s))) ==> Distance(Next(s, Towards(s))) < Distance(s)
  {
    if s.terminal == AwaitCall {
      TowardsDuringCall(s);
    } else if s.terminal.AwaitQuarantine? || s.terminal == Finished {
      TowardsDuringQuarantine(s);
    } else if s.terminal == Unclaimed {
      TowardsByClosing(s);
    } else if s.terminal.ControlPreparing? || s.terminal.ControlInFlight? {
      TowardsDuringControl(s);
    } else {
      TowardsDuringReset(s);
    }
  }

  lemma {:induction false} TowardsByClosing(s: State)
    requires Invariant(s) && HoldsLease(s) && s.terminal == Unclaimed
    ensures Enabled(s, Towards(s))
    ensures HoldsLease(Next(s, Towards(s))) ==> Distance(Next(s, Towards(s))) < Distance(s)
  {}

  lemma {:induction false} TowardsDuringControl(s: State)
    requires Invariant(s) && HoldsLease(s) && (s.terminal.ControlPreparing? || s.terminal.ControlInFlight?)
    ensures Enabled(s, Towards(s))
    ensures HoldsLease(Next(s, Towards(s))) ==> Distance(Next(s, Towards(s))) < Distance(s)
  {}

  lemma {:induction false} TowardsDuringReset(s: State)
    requires Invariant(s) && HoldsLease(s) && !s.terminal.ControlPreparing? && !s.terminal.ControlInFlight?
    requires s.terminal != AwaitCall && !s.terminal.AwaitQuarantine? && s.terminal != Finished && s.terminal != Unclaimed
    ensures Enabled(s, Towards(s))
    ensures HoldsLease(Next(s, Towards(s))) ==> Distance(Next(s, Towards(s))) < Distance(s)
  {}

  lemma {:induction false} TowardsDuringCall(s: State)
    requires Invariant(s) && HoldsLease(s) && s.terminal == AwaitCall
    ensures Enabled(s, Towards(s))
    ensures HoldsLease(Next(s, Towards(s))) ==> Distance(Next(s, Towards(s))) < Distance(s)
  {}

  lemma {:induction false} TowardsDuringQuarantine(s: State)
    requires Invariant(s) && HoldsLease(s) && (s.terminal.AwaitQuarantine? || s.terminal == Finished)
    ensures Enabled(s, Towards(s))
    ensures HoldsLease(Next(s, Towards(s))) ==> Distance(Next(s, Towards(s))) < Distance(s)
  {}

  /** However a run went so far, it can still go on until every acquired lease has been handed over. */
  lemma {:induction false} NoLeaseIsStranded(s: State) returns (events: seq<Event>)
    requires Invariant(s)
    ensures Run(s, events) && forall i :: 0 <= i < |After(s, events).uses| ==> After(s, events).uses[i].Released?
    decreases if HoldsLease(s) then Distance(s) + 1 else 0
  {
    if HoldsLease(s) {
      TowardsIsPossible(s);
      var e := Towards(s);
      StepKeepsInvariant(s, e);
      var rest := NoLeaseIsStranded(Next(s, e));
      events := [e] + rest;
      assert events[1..] == rest;
    } else {
      events := [];
    }
  }
}
