/**
 * The registry of stateful session contexts as a step system: reference-counted contexts, each
 * pinning one lease, that leave by a matched end, by a fatal operation, or by retirement of
 * the whole runtime. Steps are the stretches between two awaits and may interleave freely.
 */
module SessionContext {

  datatype Phase = Open | Retiring | Retired

  datatype EntryState = Ready | Ending | Leaving | Fatal | Closed

  /**
   * The lease as its adapter sees it: held, handed over once (with what was true then), or
   * abandoned because the scheduler failed before the release call. NotHere: no lease came, or
   * it was passed on. Broken records a second release.
   */
  datatype Use = NotHere | Held(reset: bool) | Released(reusable: bool, reset: bool, open: bool) | Abandoned | Broken

  function HandOver(u: Use, reusable: bool, open: bool): Use {
    if u.Held? then Released(reusable, u.reset, open) else Broken
  }

  function Abandon(u: Use): Use {
    if u.Held? then Abandoned else Broken
  }

  /** How far the cleanup of a context or of an unusable lease has come. */
  datatype Stage =
    | Live
    | ResetPreparing
    | ResetInFlight
    | AwaitOperation
    | ReleasePreparing(reusable: bool)
    | ReleaseInFlight
    | Notifying
    | Gone

  datatype Entry = Entry(state: EntryState, stage: Stage, references: nat, active: bool, releaseClaimed: bool, use: Use)

  /** A begin() under way: waiting for its lease, checking it, or rolling it back. */
  datatype Opening = Acquiring | Checking(use: Use) | RollingBack(stage: Stage, use: Use) | Done(use: Use)

  /** A lease that came after its acquire had been given up. */
  datatype LateLease = LateLease(stage: Stage, use: Use)

  datatype Monitor = Monitor(
    ready: int, ending: int, retiring: int, fatalCleaning: int, pinnedLeases: int, references: int, opening: int,
    activeOperations: int)

  datatype State = State(
    phase: Phase,
    entries: seq<Entry>,
    openings: seq<Opening>,
    lateAcquires: nat,
    lateLeases: seq<LateLease>,
    awaitedOpenings: nat,
    awaitedEntries: nat,
    schedulerFaults: nat,
    monitor: Monitor)

  const NO_ACTIVITY := Monitor(0, 0, 0, 0, 0, 0, 0, 0)

  predicate IsInitial(s: State) {
    && s.phase == Open && s.entries == [] && s.openings == [] && s.lateAcquires == 0 && s.lateLeases == []
    && s.schedulerFaults == 0 && s.monitor == NO_ACTIVITY
  }

  datatype Event =
    | Begin
    | BeginNested(i: nat)
    | AcquireFulfilled(k: nat)
    | AcquireFailed(k: nat, outlived: bool)
    | LeaseChecked(k: nat, usable: bool)
    | RollbackCalled(k: nat)
    | RollbackNotMade(k: nat)
    | RollbackEnded(k: nat)
    | LateAcquireFailed
    | LateLeaseArrived
    | LateReleaseCalled(j: nat)
    | LateReleaseNotMade(j: nat)
    | LateReleaseEnded(j: nat)
    | Run(i: nat)
    | OperationEnded(i: nat, fatal: bool)
    | End(i: nat)
    | ResetCalled(i: nat)
    | ResetEnded(i: nat, ok: bool)
    | OperationAwaited(i: nat)
    | ReleaseCalled(i: nat)
    | ReleaseNotMade(i: nat)
    | ReleaseEnded(i: nat)
    | OwnerNotified(i: nat)
    | Retire
    | RetirementCompletes

  // ---------------------------------------------------------------- counting

  function Indicator(b: bool): nat {
    if b then 1 else 0
  }

  function Tally(entries: seq<Entry>, state: EntryState): nat {
    if entries == [] then 0 else Tally(entries[..|entries| - 1], state) + Indicator(entries[|entries| - 1].state == state)
  }

  function References(entries: seq<Entry>): nat {
    if entries == [] then 0 else References(entries[..|entries| - 1]) + entries[|entries| - 1].references
  }

  function Operations(entries: seq<Entry>): nat {
    if entries == [] then 0 else Operations(entries[..|entries| - 1]) + Indicator(entries[|entries| - 1].active)
  }

  function Unfinished(openings: seq<Opening>): nat {
    if openings == [] then 0
    else Unfinished(openings[..|openings| - 1]) + Indicator(!openings[|openings| - 1].Done?)
  }

  // ---------------------------------------------------------------- steps

  predicate IsEntry(s: State, i: nat) {
    i < |s.entries|
  }

  function WithEntry(s: State, i: nat, e: Entry, m: Monitor): State {
    if i < |s.entries| then s.(entries := s.entries[i := e], monitor := m) else s
  }

  function WithOpening(s: State, k: nat, o: Opening): State {
    if k < |s.openings| then s.(openings := s.openings[k := o]) else s
  }

  /** The begin() ends. */
  function OpeningDone(s: State, k: nat, use: Use): State {
    WithOpening(s, k, Done(use)).(monitor := s.monitor.(opening := s.monitor.opening - 1))
  }

  predicate Usable(e: Entry) {
    e.state == Ready && e.references >= 1
  }

  function AfterBegin(s: State): State {
    if s.phase != Open then s
    else s.(openings := s.openings + [Acquiring], monitor := s.monitor.(opening := s.monitor.opening + 1))
  }

  function AfterBeginNested(s: State, i: nat): State
    requires IsEntry(s, i)
  {
    var e := s.entries[i];
    if s.phase == Open && Usable(e) && !e.active then
      WithEntry(s, i, e.(references := e.references + 1), s.monitor.(references := s.monitor.references + 1))
    else s
  }

  /** A usable lease is published while the runtime is open; otherwise it is rolled back. */
  function AfterLeaseChecked(s: State, k: nat, usable: bool): State
    requires k < |s.openings| && s.openings[k].Checking?
  {
    if usable && s.phase == Open then
      var m := s.monitor.(ready := s.monitor.ready + 1, pinnedLeases := s.monitor.pinnedLeases + 1,
                          references := s.monitor.references + 1);
      OpeningDone(s.(entries := s.entries + [Entry(Ready, Live, 1, false, false, s.openings[k].use)], monitor := m), k, NotHere)
    else WithOpening(s, k, RollingBack(ReleasePreparing(false), s.openings[k].use))
  }

  function AfterRun(s: State, i: nat): State
    requires IsEntry(s, i)
  {
    var e := s.entries[i];
    if s.phase == Open && Usable(e) && !e.active then
      WithEntry(s, i, e.(active := true), s.monitor.(activeOperations := s.monitor.activeOperations + 1))
    else s
  }

  /** An operation gives up its claim; a fatal one takes the context out while it is still ready. */
  function AfterOperation(s: State, i: nat, fatal: bool): State
    requires IsEntry(s, i) && s.entries[i].active
  {
    var e := s.entries[i];
    var m := s.monitor.(activeOperations := s.monitor.activeOperations - 1);
    if fatal && s.phase == Open && e.state == Ready then
      WithEntry(s, i, Entry(Fatal, ReleasePreparing(false), 0, false, true, e.use),
                m.(ready := m.ready - 1, references := m.references - e.references, fatalCleaning := m.fatalCleaning + 1))
    else WithEntry(s, i, e.(active := false), m)
  }

  /** end() takes one reference; the last one starts the reset. */
  function AfterEnd(s: State, i: nat): State
    requires IsEntry(s, i)
  {
    var e := s.entries[i];
    if s.phase != Open || e.state != Ready || e.active || e.references < 1 then s
    else if e.references > 1 then
      WithEntry(s, i, e.(references := e.references - 1), s.monitor.(references := s.monitor.references - 1))
    else
      WithEntry(s, i, Entry(Ending, ResetPreparing, 0, false, e.releaseClaimed, e.use),
                s.monitor.(references := s.monitor.references - 1, ready := s.monitor.ready - 1, ending := s.monitor.ending + 1))
  }

  /** The release is claimed once; a context whose release was claimed before is closed at once. */
  function ClaimRelease(s: State, i: nat, e: Entry, reusable: bool): State {
    if e.releaseClaimed then CloseEntry(s, i, e)
    else WithEntry(s, i, e.(releaseClaimed := true, stage := ReleasePreparing(reusable)), s.monitor)
  }

  function AfterReset(s: State, i: nat, ok: bool): State
    requires IsEntry(s, i)
  {
    var e := s.entries[i];
    var use := if ok && e.use.Held? then Held(true) else e.use;
    ClaimRelease(s, i, e.(use := use), ok && s.phase == Open)
  }

  /** At the call itself the runtime is looked at once more. */
  function AfterReleaseCalled(s: State, i: nat): State
    requires IsEntry(s, i) && s.entries[i].stage.ReleasePreparing?
  {
    var e := s.entries[i];
    var reusable := e.stage.reusable && s.phase == Open;
    WithEntry(s, i, e.(stage := ReleaseInFlight, use := HandOver(e.use, reusable, s.phase == Open)), s.monitor)
  }

  function ClosedMonitor(m: Monitor, prior: EntryState): Monitor {
    var unpinned := m.(pinnedLeases := m.pinnedLeases - 1);
    match prior
    case Ending => unpinned.(ending := m.ending - 1)
    case Leaving => unpinned.(retiring := m.retiring - 1)
    case _ => unpinned.(fatalCleaning := m.fatalCleaning - 1)
  }

  /** The context lets go of its lease; a fatal one stays until its owner has been told. */
  function CloseEntry(s: State, i: nat, e: Entry): State {
    WithEntry(s, i, e.(state := Closed, stage := if e.state == Fatal then Notifying else Gone), ClosedMonitor(s.monitor, e.state))
  }

  function ClaimedForRetirement(e: Entry): Entry {
    if e.state == Ready then e.(state := Leaving, stage := AwaitOperation, references := 0) else e
  }

  function AllClaimed(entries: seq<Entry>): (r: seq<Entry>)
    ensures |r| == |entries| && forall i :: 0 <= i < |entries| ==> r[i] == ClaimedForRetirement(entries[i])
  {
    if entries == [] then [] else AllClaimed(entries[..|entries| - 1]) + [ClaimedForRetirement(entries[|entries| - 1])]
  }

  function ClaimedMonitor(m: Monitor, e: Entry): Monitor {
    if e.state == Ready then
      m.(ready := m.ready - 1, retiring := m.retiring + 1, references := m.references - e.references)
    else m
  }

  function RetiredMonitor(m: Monitor, entries: seq<Entry>): Monitor {
    if entries == [] then m
    else ClaimedMonitor(RetiredMonitor(m, entries[..|entries| - 1]), entries[|entries| - 1])
  }

  function AfterRetire(s: State): State {
    if s.phase != Open then s
    else
      s.(phase := Retiring, entries := AllClaimed(s.entries), monitor := RetiredMonitor(s.monitor, s.entries),
         awaitedOpenings := |s.openings|, awaitedEntries := |s.entries|)
  }

  ghost predicate Converged(s: State) {
    && (forall k :: 0 <= k < s.awaitedOpenings && k < |s.openings| ==> s.openings[k].Done?)
    && (forall i :: 0 <= i < s.awaitedEntries && i < |s.entries| ==> s.entries[i].stage == Gone)
    && (forall j :: 0 <= j < |s.lateLeases| ==> s.lateLeases[j].stage == Gone)
  }

  ghost predicate Enabled(s: State, e: Event) {
    match e
    case Begin | Retire => true
    case BeginNested(i) => IsEntry(s, i)
    case Run(i) => IsEntry(s, i)
    case End(i) => IsEntry(s, i)
    case AcquireFulfilled(k) => k < |s.openings| && s.openings[k].Acquiring?
    case AcquireFailed(k, _) => k < |s.openings| && s.openings[k].Acquiring?
    case LeaseChecked(k, _) => k < |s.openings| && s.openings[k].Checking?
    case RollbackCalled(k) => k < |s.openings| && s.openings[k].RollingBack? && s.openings[k].stage.ReleasePreparing?
    case RollbackNotMade(k) => k < |s.openings| && s.openings[k].RollingBack? && s.openings[k].stage.ReleasePreparing?
    case RollbackEnded(k) => k < |s.openings| && s.openings[k].RollingBack? && s.openings[k].stage == ReleaseInFlight
    case LateAcquireFailed | LateLeaseArrived => s.lateAcquires > 0
    case LateReleaseCalled(j) => j < |s.lateLeases| && s.lateLeases[j].stage.ReleasePreparing?
    case LateReleaseNotMade(j) => j < |s.lateLeases| && s.lateLeases[j].stage.ReleasePreparing?
    case LateReleaseEnded(j) => j < |s.lateLeases| && s.lateLeases[j].stage == ReleaseInFlight
    case OperationEnded(i, _) => IsEntry(s, i) && s.entries[i].active
    case ResetCalled(i) => IsEntry(s, i) && s.entries[i].stage == ResetPreparing
    case ResetEnded(i, ok) =>
      IsEntry(s, i) && (s.entries[i].stage == ResetInFlight || (!ok && s.entries[i].stage == ResetPreparing))
    case OperationAwaited(i) => IsEntry(s, i) && s.entries[i].stage == AwaitOperation && !s.entries[i].active
    case ReleaseCalled(i) => IsEntry(s, i) && s.entries[i].stage.ReleasePreparing?
    case ReleaseNotMade(i) => IsEntry(s, i) && s.entries[i].stage.ReleasePreparing?
    case ReleaseEnded(i) => IsEntry(s, i) && s.entries[i].stage == ReleaseInFlight
    case OwnerNotified(i) => IsEntry(s, i) && s.entries[i].stage == Notifying
    case RetirementCompletes => s.phase == Retiring && Converged(s)
  }

  ghost function Next(s: State, e: Event): State
    requires Enabled(s, e)
  {
    match e
    case Begin => AfterBegin(s)
    case BeginNested(i) => AfterBeginNested(s, i)
    case AcquireFulfilled(k) => WithOpening(s, k, Checking(Held(false)))
    case AcquireFailed(k, outlived) =>
      OpeningDone(s.(lateAcquires := s.lateAcquires + Indicator(outlived)), k, NotHere)
    case LeaseChecked(k, usable) => AfterLeaseChecked(s, k, usable)
    case RollbackCalled(k) =>
      WithOpening(s, k, RollingBack(ReleaseInFlight, HandOver(s.openings[k].use, false, s.phase == Open)))
    case RollbackNotMade(k) =>
      OpeningDone(s.(schedulerFaults := s.schedulerFaults + 1), k, Abandon(s.openings[k].use))
    case RollbackEnded(k) => OpeningDone(s, k, s.openings[k].use)
    case LateAcquireFailed => s.(lateAcquires := s.lateAcquires - 1)
    case LateLeaseArrived =>
      s.(lateAcquires := s.lateAcquires - 1, lateLeases := s.lateLeases + [LateLease(ReleasePreparing(false), Held(false))])
    case LateReleaseCalled(j) =>
      s.(lateLeases := s.lateLeases[j := LateLease(ReleaseInFlight, HandOver(s.lateLeases[j].use, false, s.phase == Open))])
    case LateReleaseNotMade(j) =>
      s.(lateLeases := s.lateLeases[j := LateLease(Gone, Abandon(s.lateLeases[j].use))], schedulerFaults := s.schedulerFaults + 1)
    case LateReleaseEnded(j) => s.(lateLeases := s.lateLeases[j := s.lateLeases[j].(stage := Gone)])
    case Run(i) => AfterRun(s, i)
    case OperationEnded(i, fatal) => AfterOperation(s, i, fatal)
    case End(i) => AfterEnd(s, i)
    case ResetCalled(i) => WithEntry(s, i, s.entries[i].(stage := ResetInFlight), s.monitor)
    case ResetEnded(i, ok) => AfterReset(s, i, ok)
    case OperationAwaited(i) => ClaimRelease(s, i, s.entries[i], false)
    case ReleaseCalled(i) => AfterReleaseCalled(s, i)
    case ReleaseNotMade(i) =>
      CloseEntry(s.(schedulerFaults := s.schedulerFaults + 1), i, s.entries[i].(use := Abandon(s.entries[i].use)))
    case ReleaseEnded(i) => CloseEntry(s, i, s.entries[i])
    case OwnerNotified(i) => WithEntry(s, i, s.entries[i].(stage := Gone), s.monitor)
    case Retire => AfterRetire(s)
    case RetirementCompletes => s.(phase := Retired)
  }

  // ---------------------------------------------------------------- the invariant

  /** Never released twice; reusable only with a fulfilled reset and while the runtime was open. */
  predicate SoundUse(u: Use) {
    !u.Broken? && (u.Released? && u.reusable ==> u.reset && u.open)
  }

  /** A release that is coming up still has its lease and keeps its promise. */
  predicate ReleaseComing(stage: Stage, use: Use) {
    stage.ReleasePreparing? && use.Held? && (stage.reusable ==> use.reset)
  }

  predicate ReleaseOver(use: Use) {
    use.Released? || use.Abandoned?
  }

  predicate Cleaning(e: Entry) {
    e.releaseClaimed && !e.active && (ReleaseComing(e.stage, e.use) || (e.stage == ReleaseInFlight && e.use.Released?))
  }

  predicate EntryInvariant(e: Entry) {
    && SoundUse(e.use) && (e.state != Ready ==> e.references == 0)
    && match e.state
       case Ready => e.stage == Live && e.references >= 1 && !e.releaseClaimed && e.use.Held?
       case Ending =>
         || (!e.releaseClaimed && !e.active && e.use.Held? && (e.stage == ResetPreparing || e.stage == ResetInFlight))
         || Cleaning(e)
       case Leaving => (!e.releaseClaimed && e.use.Held? && e.stage == AwaitOperation) || (Cleaning(e) && e.stage != ReleasePreparing(true))
       case Fatal => Cleaning(e) && e.stage != ReleasePreparing(true)
       case Closed => !e.active && ReleaseOver(e.use) && (e.stage == Notifying || e.stage == Gone)
  }

  predicate OpeningInvariant(o: Opening) {
    match o
    case Acquiring => true
    case Checking(use) => use.Held?
    case RollingBack(stage, use) =>
      (stage == ReleasePreparing(false) && use.Held?) || (stage == ReleaseInFlight && use.Released? && SoundUse(use))
    case Done(use) => (use.NotHere? || ReleaseOver(use)) && SoundUse(use)
  }

  predicate LateInvariant(l: LateLease) {
    || (l.stage == ReleasePreparing(false) && l.use.Held?)
    || (l.stage == ReleaseInFlight && l.use.Released? && SoundUse(l.use))
    || (l.stage == Gone && ReleaseOver(l.use) && SoundUse(l.use))
  }

  /** The pool's view of the runtime agrees with its contexts at every await. */
  predicate MonitorBalances(s: State) {
    && s.monitor.ready == Tally(s.entries, Ready)
    && s.monitor.ending == Tally(s.entries, Ending)
    && s.monitor.retiring == Tally(s.entries, Leaving)
    && s.monitor.fatalCleaning == Tally(s.entries, Fatal)
    && s.monitor.pinnedLeases == s.monitor.ready + s.monitor.ending + s.monitor.retiring + s.monitor.fatalCleaning
    && s.monitor.references == References(s.entries)
    && s.monitor.opening == Unfinished(s.openings)
    && s.monitor.activeOperations == Operations(s.entries)
  }

  ghost predicate EntriesSound(s: State) {
    && (forall i :: 0 <= i < |s.entries| ==> EntryInvariant(s.entries[i]))
    && (forall i :: 0 <= i < |s.entries| && s.phase != Open ==> s.entries[i].state != Ready)
    && (forall i :: 0 <= i < |s.entries| && s.schedulerFaults == 0 ==> s.entries[i].use != Abandoned)
  }

  predicate OpeningUse(o: Opening, faults: nat) {
    OpeningInvariant(o) && (faults == 0 && o.Done? ==> o.use != Abandoned)
  }

  ghost predicate OpeningsSound(s: State) {
    forall k :: 0 <= k < |s.openings| ==> OpeningUse(s.openings[k], s.schedulerFaults)
  }

  ghost predicate LateLeasesSound(s: State) {
    forall j :: 0 <= j < |s.lateLeases| ==> LateInvariant(s.lateLeases[j]) && (s.schedulerFaults == 0 ==> s.lateLeases[j].use != Abandoned)
  }

  /** Retirement waits for every opening and every context, since none is added after it began. */
  ghost predicate RetirementSound(s: State) {
    && (s.phase != Open ==> s.awaitedOpenings == |s.openings| && s.awaitedEntries == |s.entries|)
    && (s.phase == Retired ==>
          && (forall k :: 0 <= k < |s.openings| ==> s.openings[k].Done?)
          && (forall i :: 0 <= i < |s.entries| ==> s.entries[i].stage == Gone))
  }

  ghost predicate Invariant(s: State) {
    MonitorBalances(s) && EntriesSound(s) && OpeningsSound(s) && LateLeasesSound(s) && RetirementSound(s)
  }

  // ---------------------------------------------------------------- counting lemmas

  lemma {:induction false} CountsAfterUpdate(entries: seq<Entry>, i: nat, e: Entry, state: EntryState)
    requires i < |entries|
    ensures Tally(entries[i := e], state) == Tally(entries, state) - Indicator(entries[i].state == state) + Indicator(e.state == state)
    ensures References(entries[i := e]) == References(entries) - entries[i].references + e.references
    ensures Operations(entries[i := e]) == Operations(entries) - Indicator(entries[i].active) + Indicator(e.active)
  {
    var n := |entries| - 1;
    if i < n {
      CountsAfterUpdate(entries[..n], i, e, state);
      assert entries[i := e][..n] == entries[..n][i := e];
    } else {
      assert entries[i := e][..n] == entries[..n];
    }
  }

  lemma {:induction false} UnfinishedAfterUpdate(openings: seq<Opening>, k: nat, o: Opening)
    requires k < |openings|
    ensures Unfinished(openings[k := o]) == Unfinished(openings) - Indicator(!openings[k].Done?) + Indicator(!o.Done?)
  {
    var n := |openings| - 1;
    if k < n {
      UnfinishedAfterUpdate(openings[..n], k, o);
      assert openings[k := o][..n] == openings[..n][k := o];
    } else {
      assert openings[k := o][..n] == openings[..n];
    }
  }

  /** Nothing is counted where nothing is left. */
  lemma {:induction false} NothingCounted(entries: seq<Entry>, openings: seq<Opening>)
    requires forall i :: 0 <= i < |entries| ==> entries[i].state == Closed && entries[i].references == 0 && !entries[i].active
    requires forall k :: 0 <= k < |openings| ==> openings[k].Done?
    ensures Tally(entries, Ready) == 0 && Tally(entries, Ending) == 0 && Tally(entries, Leaving) == 0 && Tally(entries, Fatal) == 0
    ensures References(entries) == 0 && Operations(entries) == 0 && Unfinished(openings) == 0
  {
    if entries != [] {
      NothingCounted(entries[..|entries| - 1], openings);
    } else if openings != [] {
      NothingCounted(entries, openings[..|openings| - 1]);
    }
  }

  // ---------------------------------------------------------------- every step keeps it

  /** One context changes to a sound one, and the monitor changes by the difference. */
  lemma {:induction false} EntryChangeKeepsInvariant(s: State, i: nat, e: Entry, m: Monitor)
    requires Invariant(s) && IsEntry(s, i) && EntryInvariant(e)
    requires s.phase != Open ==> e.state != Ready
    requires s.phase == Retired ==> e.stage == Gone
    requires s.schedulerFaults == 0 ==> e.use != Abandoned
    requires
      var was := s.entries[i];
      && m.ready == s.monitor.ready - Indicator(was.state == Ready) + Indicator(e.state == Ready)
      && m.ending == s.monitor.ending - Indicator(was.state == Ending) + Indicator(e.state == Ending)
      && m.retiring == s.monitor.retiring - Indicator(was.state == Leaving) + Indicator(e.state == Leaving)
      && m.fatalCleaning == s.monitor.fatalCleaning - Indicator(was.state == Fatal) + Indicator(e.state == Fatal)
      && m.pinnedLeases == s.monitor.pinnedLeases - Indicator(was.state != Closed) + Indicator(e.state != Closed)
      && m.references == s.monitor.references - was.references + e.references
      && m.opening == s.monitor.opening
      && m.activeOperations == s.monitor.activeOperations - Indicator(was.active) + Indicator(e.active)
    ensures Invariant(WithEntry(s, i, e, m))
  {
    CountsAfterUpdate(s.entries, i, e, Ready);
    CountsAfterUpdate(s.entries, i, e, Ending);
    CountsAfterUpdate(s.entries, i, e, Leaving);
    CountsAfterUpdate(s.entries, i, e, Fatal);
  }

  lemma {:induction false} OpeningChangeKeepsInvariant(s: State, k: nat, o: Opening)
    requires Invariant(s) && k < |s.openings| && OpeningUse(o, s.schedulerFaults)
    requires !s.openings[k].Done?
    ensures Invariant(if o.Done? then OpeningDone(s, k, o.use) else WithOpening(s, k, o))
  {
    UnfinishedAfterUpdate(s.openings, k, o);
  }

  lemma {:induction false} BeginKeepsInvariant(s: State)
    requires Invariant(s)
    ensures Invariant(AfterBegin(s))
  {
    if s.phase == Open {
      var after := AfterBegin(s);
      assert after.openings[..|s.openings|] == s.openings;
    }
  }

  /** A scheduler fault only weakens what is claimed. */
  lemma {:induction false} FaultKeepsInvariant(s: State)
    requires Invariant(s)
    ensures Invariant(s.(schedulerFaults := s.schedulerFaults + 1))
  {}

  lemma {:induction false} PublishKeepsInvariant(s: State, use: Use, m: Monitor)
    requires Invariant(s) && s.phase == Open && use.Held?
    requires m == s.monitor.(ready := s.monitor.ready + 1, pinnedLeases := s.monitor.pinnedLeases + 1, references := s.monitor.references + 1)
    ensures Invariant(s.(entries := s.entries + [Entry(Ready, Live, 1, false, false, use)], monitor := m))
  {
    var entries := s.entries + [Entry(Ready, Live, 1, false, false, use)];
    assert entries[..|s.entries|] == s.entries;
  }

  lemma {:induction false} LeaseCheckedKeepsInvariant(s: State, k: nat, usable: bool)
    requires Invariant(s) && Enabled(s, LeaseChecked(k, usable))
    ensures Invariant(Next(s, LeaseChecked(k, usable)))
  {
    var use := s.openings[k].use;
    assert OpeningUse(s.openings[k], s.schedulerFaults);
    if usable && s.phase == Open {
      var m := s.monitor.(ready := s.monitor.ready + 1, pinnedLeases := s.monitor.pinnedLeases + 1,
                          references := s.monitor.references + 1);
      PublishKeepsInvariant(s, use, m);
      OpeningChangeKeepsInvariant(s.(entries := s.entries + [Entry(Ready, Live, 1, false, false, use)], monitor := m), k, Done(NotHere));
    } else {
      OpeningChangeKeepsInvariant(s, k, RollingBack(ReleasePreparing(false), use));
    }
  }

  predicate OpeningEvent(e: Event) {
    e.AcquireFulfilled? || e.AcquireFailed? || e.RollbackCalled? || e.RollbackNotMade? || e.RollbackEnded?
  }

  lemma {:induction false} RollbackLostKeepsInvariant(s: State, k: nat)
    requires Invariant(s) && Enabled(s, RollbackNotMade(k))
    ensures Invariant(Next(s, RollbackNotMade(k)))
  {
    assert OpeningUse(s.openings[k], s.schedulerFaults);
    FaultKeepsInvariant(s);
    OpeningChangeKeepsInvariant(s.(schedulerFaults := s.schedulerFaults + 1), k, Done(Abandoned));
  }

  lemma {:induction false} OpeningStepKeepsInvariant(s: State, e: Event)
    requires Invariant(s) && Enabled(s, e) && OpeningEvent(e)
    ensures Invariant(Next(s, e))
  {
    assert OpeningUse(s.openings[e.k], s.schedulerFaults);
    match e
    case AcquireFulfilled(k) => OpeningChangeKeepsInvariant(s, k, Checking(Held(false)));
    case AcquireFailed(k, outlived) =>
      OpeningChangeKeepsInvariant(s.(lateAcquires := s.lateAcquires + Indicator(outlived)), k, Done(NotHere));
    case RollbackCalled(k) =>
      OpeningChangeKeepsInvariant(s, k, RollingBack(ReleaseInFlight, HandOver(s.openings[k].use, false, s.phase == Open)));
    case RollbackNotMade(k) => RollbackLostKeepsInvariant(s, k);
    case RollbackEnded(k) => OpeningChangeKeepsInvariant(s, k, Done(s.openings[k].use));
  }

  predicate LateEvent(e: Event) {
    e.LateAcquireFailed? || e.LateLeaseArrived? || e.LateReleaseCalled? || e.LateReleaseNotMade? || e.LateReleaseEnded?
  }

  lemma {:induction false} LateStepKeepsInvariant(s: State, e: Event)
    requires Invariant(s) && Enabled(s, e) && LateEvent(e)
    ensures Invariant(Next(s, e))
  {}

  /** The context lets go of a lease that has been handed over or abandoned. */
  lemma {:induction false} CloseKeepsInvariant(s: State, i: nat, e: Entry)
    requires Invariant(s) && IsEntry(s, i) && SoundUse(e.use) && ReleaseOver(e.use) && (s.schedulerFaults == 0 ==> e.use != Abandoned)
    requires Cleaning(s.entries[i]) && e == s.entries[i].(use := e.use)
    requires s.entries[i].state != Ready && s.entries[i].state != Closed
    ensures Invariant(CloseEntry(s, i, e))
  {
    EntryChangeKeepsInvariant(s, i, e.(state := Closed, stage := if e.state == Fatal then Notifying else Gone),
                              ClosedMonitor(s.monitor, e.state));
  }

  predicate UseEvent(e: Event) {
    e.BeginNested? || e.Run? || e.OperationEnded? || e.End?
  }

  lemma {:induction false} UseStepKeepsInvariant(s: State, e: Event)
    requires Invariant(s) && Enabled(s, e) && UseEvent(e)
    ensures Invariant(Next(s, e))
  {
    var i := e.i;
    assert EntryInvariant(s.entries[i]);
    var after := Next(s, e);
    if after != s {
      EntryChangeKeepsInvariant(s, i, after.entries[i], after.monitor);
    }
  }

  predicate CleanupEvent(e: Event) {
    e.ResetCalled? || e.ResetEnded? || e.OperationAwaited? || e.ReleaseCalled? || e.OwnerNotified?
  }

  lemma {:induction false} CleanupStepKeepsInvariant(s: State, e: Event)
    requires Invariant(s) && Enabled(s, e) && CleanupEvent(e)
    ensures Invariant(Next(s, e))
  {
    var i := e.i;
    assert EntryInvariant(s.entries[i]);
    EntryChangeKeepsInvariant(s, i, Next(s, e).entries[i], s.monitor);
  }

  predicate ReleaseEvent(e: Event) {
    e.ReleaseNotMade? || e.ReleaseEnded?
  }

  lemma {:induction false} ReleaseStepKeepsInvariant(s: State, e: Event)
    requires Invariant(s) && Enabled(s, e) && ReleaseEvent(e)
    ensures Invariant(Next(s, e))
  {
    var i := e.i;
    assert EntryInvariant(s.entries[i]);
    if e.ReleaseNotMade? {
      FaultKeepsInvariant(s);
      CloseKeepsInvariant(s.(schedulerFaults := s.schedulerFaults + 1), i, s.entries[i].(use := Abandoned));
    } else {
      CloseKeepsInvariant(s, i, s.entries[i]);
    }
  }

  /** Claiming all ready contexts moves their counts to retiring and drops their references. */
  lemma {:induction false} ClaimingMovesCounts(entries: seq<Entry>, m: Monitor)
    requires forall i :: 0 <= i < |entries| ==> EntryInvariant(entries[i])
    ensures
      var claimed := AllClaimed(entries);
      var after := RetiredMonitor(m, entries);
      && Tally(claimed, Ready) == 0 && Tally(claimed, Leaving) == Tally(entries, Leaving) + Tally(entries, Ready)
      && Tally(claimed, Ending) == Tally(entries, Ending) && Tally(claimed, Fatal) == Tally(entries, Fatal)
      && References(claimed) == 0 && Operations(claimed) == Operations(entries)
      && after == m.(ready := m.ready - Tally(entries, Ready), retiring := m.retiring + Tally(entries, Ready),
                     references := m.references - References(entries))
  {
    if entries != [] {
      var n := |entries| - 1;
      ClaimingMovesCounts(entries[..n], m);
      assert AllClaimed(entries)[..n] == AllClaimed(entries[..n]);
      assert EntryInvariant(entries[n]);
    }
  }

  lemma {:induction false} RetireKeepsInvariant(s: State)
    requires Invariant(s)
    ensures Invariant(AfterRetire(s))
  {
    if s.phase == Open {
      ClaimingMovesCounts(s.entries, s.monitor);
      forall i | 0 <= i < |s.entries|
        ensures EntryInvariant(ClaimedForRetirement(s.entries[i])) && ClaimedForRetirement(s.entries[i]).state != Ready
        ensures ClaimedForRetirement(s.entries[i]).use == s.entries[i].use
      {
        assert EntryInvariant(s.entries[i]);
      }
    }
  }

  lemma {:induction false} RuntimeStepKeepsInvariant(s: State, e: Event)
    requires Invariant(s) && Enabled(s, e) && (e.Begin? || e.LeaseChecked? || e.Retire? || e.RetirementCompletes?)
    ensures Invariant(Next(s, e))
  {
    match e
    case Begin => BeginKeepsInvariant(s);
    case LeaseChecked(k, usable) => LeaseCheckedKeepsInvariant(s, k, usable);
    case Retire => RetireKeepsInvariant(s);
    case RetirementCompletes =>
  }

  lemma {:induction false} StepKeepsInvariant(s: State, e: Event)
    requires Invariant(s) && Enabled(s, e)
    ensures Invariant(Next(s, e))
  {
    if UseEvent(e) {
      UseStepKeepsInvariant(s, e);
    } else if CleanupEvent(e) {
      CleanupStepKeepsInvariant(s, e);
    } else if ReleaseEvent(e) {
      ReleaseStepKeepsInvariant(s, e);
    } else if OpeningEvent(e) {
      OpeningStepKeepsInvariant(s, e);
    } else if LateEvent(e) {
      LateStepKeepsInvariant(s, e);
    } else {
      RuntimeStepKeepsInvariant(s, e);
    }
  }

  // ---------------------------------------------------------------- runs

  ghost predicate RunOf(s: State, events: seq<Event>)
    decreases |events|
  {
    events == [] || (Enabled(s, events[0]) && RunOf(Next(s, events[0]), events[1..]))
  }

  ghost function After(s: State, events: seq<Event>): State
    requires RunOf(s, events)
    decreases |events|
  {
    if events == [] then s else After(Next(s, events[0]), events[1..])
  }

  ghost predicate RunTo(start: State, events: seq<Event>, s: State) {
    IsInitial(start) && RunOf(start, events) && After(start, events) == s
  }

  ghost predicate Reachable(s: State) {
    exists start, events :: RunTo(start, events, s)
  }

  lemma {:induction false} InitialInvariant(s: State)
    requires IsInitial(s)
    ensures Invariant(s)
  {}

  lemma {:induction false} RunKeepsInvariant(s: State, events: seq<Event>)
    requires Invariant(s) && RunOf(s, events)
    ensures Invariant(After(s, events))
    decreases |events|
  {
    if events != [] {
      StepKeepsInvariant(s, events[0]);
      RunKeepsInvariant(Next(s, events[0]), events[1..]);
    }
  }

  lemma {:induction false} ReachableInvariant(s: State)
    requires Reachable(s)
    ensures Invariant(s)
  {
    var start, events :| RunTo(start, events, s);
    InitialInvariant(start);
    RunKeepsInvariant(start, events);
  }

  /** At every await: the monitor is the exact count of the contexts and openings it stands for. */
  lemma {:induction false} MonitorIsExact(s: State)
    requires Reachable(s)
    ensures MonitorBalances(s)
  {
    ReachableInvariant(s);
  }

  /**
   * Whatever the interleaving, no lease is released twice, and a reusable release happens only
   * after that context's reset was fulfilled and while the runtime is open.
   */
  lemma {:induction false} ReleasesAreSound(s: State)
    requires Reachable(s)
    ensures forall i :: 0 <= i < |s.entries| ==> SoundUse(s.entries[i].use)
    ensures forall k :: 0 <= k < |s.openings| && !s.openings[k].Acquiring? ==> SoundUse(s.openings[k].use)
    ensures forall j :: 0 <= j < |s.lateLeases| ==> SoundUse(s.lateLeases[j].use)
  {
    ReachableInvariant(s);
    forall i | 0 <= i < |s.entries| ensures SoundUse(s.entries[i].use) {
      assert EntryInvariant(s.entries[i]);
    }
    forall k | 0 <= k < |s.openings| && !s.openings[k].Acquiring? ensures SoundUse(s.openings[k].use) {
      assert OpeningUse(s.openings[k], s.schedulerFaults);
    }
  }

  /** A retired runtime holds nothing: every count is zero. */
  lemma {:induction false} RetiredHoldsNothing(s: State)
    requires Reachable(s) && s.phase == Retired
    ensures s.monitor == NO_ACTIVITY
  {
    ReachableInvariant(s);
    forall i | 0 <= i < |s.entries|
      ensures s.entries[i].state == Closed && s.entries[i].references == 0 && !s.entries[i].active
    {
      assert EntryInvariant(s.entries[i]);
    }
    NothingCounted(s.entries, s.openings);
  }
}
