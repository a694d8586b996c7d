/**
 * Application leases as a linear resource shared by pooled clients, their pool, and the
 * destination owner. Fatal replacement, pool release, batch release, closeAll and the tails of
 * admitted operations race for each lease; steps are the stretches between two awaits.
 */
module Leases {
  import opened Wrappers

  datatype RecordState = Owned | ReleaseClaimed | Released

  /** How far a release has come: waiting for the operation tail, resetting, handing to the pool. */
  datatype Stage = Held | AwaitTail(reusable: bool) | Resetting | Releasing | Over

  /** Who may release the lease next. */
  datatype Holder = ByPool | ByClient(client: nat) | ByReplacement(client: nat) | ByClaim(claim: nat) | ByNobody

  /**
   * The owner's record of one lease. fatal: an admitted operation on it failed fatally.
   * releases counts the hand-overs to the connection pool, handedReusable tells the last one.
   * broken notes that a rule was violated: a hand-over while an operation ran, a second one, a
   * reusable one after a fatal failure, or an operation that entered after the release claim.
   */
  datatype Record = Record(
    state: RecordState, stage: Stage, active: bool, holder: Holder, fatal: bool, releases: nat, handedReusable: bool, broken: bool)

  datatype ClientState = Open | Faulted | Closed

  /** The operation at the head of a client's queue. */
  datatype Op =
    | Idle | Running(lease: nat) | Replacing(lease: nat) | Acquiring | Checking(lease: nat) | Dropping(lease: nat, fault: bool)

  datatype Client = Client(state: ClientState, lease: Option<nat>, claimed: bool, reusable: bool, op: Op)

  /** A client's lease taken over for release, by release() or by closeAll(). */
  datatype Claim = Claim(client: nat, lease: Option<nat>, closing: bool, done: bool)

  datatype State = State(
    closed: bool,
    records: seq<Record>,
    pending: set<nat>,
    clients: seq<Client>,
    leased: set<nat>,
    claims: seq<Claim>)

  predicate IsInitial(s: State) {
    !s.closed && s.records == [] && s.pending == {} && s.clients == [] && s.leased == {} && s.claims == []
  }

  datatype Event =
    | Issue
    | Publish(l: nat)
    | GiveUp(l: nat)
    | OpStarts(c: nat)
    | OwnerOpStarts(c: nat)
    | OwnerOpEnds(c: nat)
    | OpDone(c: nat)
    | OpFatal(c: nat)
    | ReplacementReleased(c: nat, ok: bool)
    | ReplacementAcquired(c: nat, ok: bool)
    | ReplacementChecked(c: nat, ok: bool)
    | ReplacementDropped(c: nat, ok: bool)
    | Release(batch: seq<nat>)
    | CloseAll(order: seq<nat>)
    | Recycle(k: nat, room: bool)
    | TailSettled(l: nat)
    | ResetEnded(l: nat, ok: bool)
    | PoolReleaseEnded(l: nat)

  // ---------------------------------------------------------------- steps

  function WithRecord(s: State, l: nat, r: Record): State {
    if l < |s.records| then s.(records := s.records[l := r]) else s
  }

  function WithClient(s: State, c: nat, client: Client): State {
    if c < |s.clients| then s.(clients := s.clients[c := client]) else s
  }

  function Issued(holder: Holder): Record {
    Record(Owned, Held, false, holder, false, 0, false, false)
  }

  /** The owner's releaseApplication(): the claim happens once and at once. */
  function ReleaseApplication(s: State, l: nat, reusable: bool): State {
    if l < |s.records| && s.records[l].state == Owned then
      WithRecord(s, l, s.records[l].(state := ReleaseClaimed, stage := AwaitTail(reusable), holder := ByNobody))
    else s
  }

  /** The hand-over to the connection pool. */
  function PoolRelease(r: Record, reusable: bool): Record {
    r.(stage := Releasing, releases := r.releases + 1, handedReusable := reusable,
       broken := r.broken || r.active || r.releases > 0 || (reusable && r.fatal))
  }

  function AfterPublish(s: State, l: nat): State
    requires l < |s.records|
  {
    var taken := s.(pending := s.pending - {l});
    if s.closed then ReleaseApplication(taken, l, false)
    else
      var c := |s.clients|;
      WithRecord(taken, l, s.records[l].(holder := ByClient(c)))
        .(clients := s.clients + [Client(Open, Some(l), false, true, Idle)], leased := s.leased + {c})
  }

  function AfterOpStarts(s: State, c: nat): State
    requires c < |s.clients|
  {
    var client := s.clients[c];
    if client.state == Open && client.lease.Some? then WithClient(s, c, client.(op := Running(client.lease.value))) else s
  }

  function AfterOwnerOp(s: State, l: nat): State
    requires l < |s.records|
  {
    var r := s.records[l];
    WithRecord(s, l, r.(active := true, broken := r.broken || r.state != Owned))
  }

  /** A fatal failure: the client gives up its lease, or marks the claim that took it. */
  function AfterFatal(s: State, c: nat): State
    requires c < |s.clients| && s.clients[c].op.Running? && s.clients[c].op.lease < |s.records|
  {
    var client := s.clients[c];
    var l := client.op.lease;
    var marked := WithRecord(s, l, s.records[l].(fatal := true));
    if client.lease != Some(l) then
      var poisoned := if client.claimed && client.lease == None then client.(reusable := false) else client;
      WithClient(marked, c, poisoned.(op := Idle))
    else
      ReleaseApplication(WithClient(marked, c, client.(reusable := false, lease := None, op := Replacing(l))), l, false)
  }

  function AfterReplacementReleased(s: State, c: nat, ok: bool): State
    requires c < |s.clients|
  {
    var client := s.clients[c];
    if !ok then WithClient(s, c, client.(state := Faulted, op := Idle))
    else WithClient(s, c, client.(op := if client.state == Open then Acquiring else Idle))
  }

  function AfterReplacementAcquired(s: State, c: nat, ok: bool): State
    requires c < |s.clients|
  {
    var client := s.clients[c];
    if !ok then WithClient(s, c, client.(state := Faulted, op := Idle))
    else WithClient(s, c, client.(op := Checking(|s.records|))).(records := s.records + [Issued(ByReplacement(c))])
  }

  /** A checked replacement is installed only while the client is still open. */
  function AfterReplacementChecked(s: State, c: nat, ok: bool): State
    requires c < |s.clients| && s.clients[c].op.Checking? && s.clients[c].op.lease < |s.records|
  {
    var client := s.clients[c];
    var l := client.op.lease;
    if ok && client.state == Open then
      WithRecord(WithClient(s, c, client.(lease := Some(l), reusable := true, op := Idle)), l, s.records[l].(holder := ByClient(c)))
    else ReleaseApplication(WithClient(s, c, client.(op := Dropping(l, !ok))), l, false)
  }

  /** A failed drop is tried once more; the owner's record makes the second try do nothing. */
  function AfterDropped(s: State, c: nat, ok: bool): State
    requires c < |s.clients| && s.clients[c].op.Dropping?
  {
    var client := s.clients[c];
    var retried := if ok then s else ReleaseApplication(s, client.op.lease, false);
    WithClient(retried, c, client.(state := if client.op.fault || !ok then Faulted else client.state, op := Idle))
  }

  /** Claiming a client moves its lease into the claim, synchronously. */
  function ClaimClient(s: State, c: nat, closing: bool): State {
    if c >= |s.clients| then s
    else
      var client := s.clients[c];
      var k := |s.claims|;
      var claimed :=
        WithClient(s, c, client.(state := Closed, lease := None, claimed := true))
          .(claims := s.claims + [Claim(c, client.lease, closing, false)], leased := s.leased - {c});
      if client.lease.Some? && client.lease.value < |s.records| then
        WithRecord(claimed, client.lease.value, s.records[client.lease.value].(holder := ByClaim(k)))
      else claimed
  }

  function ClaimAll(s: State, batch: seq<nat>, closing: bool): State {
    if batch == [] then s else ClaimClient(ClaimAll(s, batch[..|batch| - 1], closing), batch[|batch| - 1], closing)
  }

  predicate Distinct(batch: seq<nat>) {
    forall i, j :: 0 <= i < j < |batch| ==> batch[i] != batch[j]
  }

  /** The whole batch is checked before anything is claimed. */
  predicate ValidBatch(s: State, batch: seq<nat>) {
    Distinct(batch) && forall c :: c in batch ==> c in s.leased
  }

  function AfterRecycle(s: State, k: nat, room: bool): State
    requires k < |s.claims| && s.claims[k].client < |s.clients|
  {
    var claim := s.claims[k];
    var processed := s.(claims := s.claims[k := claim.(done := true)]);
    if claim.lease.None? then processed
    else
      ReleaseApplication(processed, claim.lease.value, !claim.closing && !s.closed && s.clients[claim.client].reusable && room)
  }

  predicate At(s: State, c: nat) {
    c < |s.clients|
  }

  ghost predicate Enabled(s: State, e: Event) {
    match e
    case Issue => true
    case Publish(l) => l in s.pending && l < |s.records|
    case GiveUp(l) => l in s.pending && l < |s.records|
    case OpStarts(c) => At(s, c) && s.clients[c].op == Idle
    case OwnerOpStarts(c) =>
      At(s, c) && s.clients[c].op.Running? && s.clients[c].op.lease < |s.records| && !s.records[s.clients[c].op.lease].active
    case OwnerOpEnds(c) =>
      At(s, c) && s.clients[c].op.Running? && s.clients[c].op.lease < |s.records| && s.records[s.clients[c].op.lease].active
    case OpDone(c) =>
      At(s, c) && s.clients[c].op.Running? && s.clients[c].op.lease < |s.records| && !s.records[s.clients[c].op.lease].active
    case OpFatal(c) =>
      At(s, c) && s.clients[c].op.Running? && s.clients[c].op.lease < |s.records| && !s.records[s.clients[c].op.lease].active
    case ReplacementReleased(c, _) =>
      At(s, c) && s.clients[c].op.Replacing? && s.clients[c].op.lease < |s.records| && s.records[s.clients[c].op.lease].state == Released
    case ReplacementAcquired(c, _) => At(s, c) && s.clients[c].op == Acquiring
    case ReplacementChecked(c, _) => At(s, c) && s.clients[c].op.Checking? && s.clients[c].op.lease < |s.records|
    case ReplacementDropped(c, _) =>
      At(s, c) && s.clients[c].op.Dropping? && s.clients[c].op.lease < |s.records| && s.records[s.clients[c].op.lease].state == Released
    case Release(_) => true
    case CloseAll(order) => s.closed || (Distinct(order) && forall c :: c in order <==> c in s.leased)
    case Recycle(k, _) =>
      && k < |s.claims| && !s.claims[k].done && s.claims[k].client < |s.clients|
      && (s.claims[k].lease.Some? ==> s.clients[s.claims[k].client].op == Idle)
    case TailSettled(l) => l < |s.records| && s.records[l].stage.AwaitTail? && !s.records[l].active
    case ResetEnded(l, _) => l < |s.records| && s.records[l].stage == Resetting
    case PoolReleaseEnded(l) => l < |s.records| && s.records[l].stage == Releasing
  }

  ghost function Next(s: State, e: Event): State
    requires Enabled(s, e)
  {
    match e
    case Issue => s.(records := s.records + [Issued(ByPool)], pending := s.pending + {|s.records|})
    case Publish(l) => AfterPublish(s, l)
    case GiveUp(l) => ReleaseApplication(s.(pending := s.pending - {l}), l, false)
    case OpStarts(c) => AfterOpStarts(s, c)
    case OwnerOpStarts(c) => AfterOwnerOp(s, s.clients[c].op.lease)
    case OwnerOpEnds(c) =>
      WithRecord(s, s.clients[c].op.lease, s.records[s.clients[c].op.lease].(active := false))
    case OpDone(c) => WithClient(s, c, s.clients[c].(op := Idle))
    case OpFatal(c) => AfterFatal(s, c)
    case ReplacementReleased(c, ok) => AfterReplacementReleased(s, c, ok)
    case ReplacementAcquired(c, ok) => AfterReplacementAcquired(s, c, ok)
    case ReplacementChecked(c, ok) => AfterReplacementChecked(s, c, ok)
    case ReplacementDropped(c, ok) => AfterDropped(s, c, ok)
    case Release(batch) => if ValidBatch(s, batch) then ClaimAll(s, batch, false) else s
    case CloseAll(order) => if s.closed then s else ClaimAll(s, order, true).(closed := true)
    case Recycle(k, room) => AfterRecycle(s, k, room)
    case TailSettled(l) =>
      var r := s.records[l];
      WithRecord(s, l, if r.stage.reusable then r.(stage := Resetting) else PoolRelease(r, false))
    case ResetEnded(l, ok) => WithRecord(s, l, PoolRelease(s.records[l], ok))
    case PoolReleaseEnded(l) =>
      WithRecord(s, l, s.records[l].(state := Released, stage := Over))
  }

  // ---------------------------------------------------------------- the invariant

  predicate RecordSound(r: Record) {
    && !r.broken
    && match r.stage
       case Held => r.state == Owned && r.releases == 0 && r.holder != ByNobody
       case AwaitTail(reusable) => r.state == ReleaseClaimed && r.releases == 0 && r.holder == ByNobody && (reusable ==> !r.fatal)
       case Resetting => r.state == ReleaseClaimed && r.releases == 0 && r.holder == ByNobody && !r.fatal && !r.active
       case Releasing => r.state == ReleaseClaimed && r.releases == 1 && r.holder == ByNobody && !r.active && (r.handedReusable ==> !r.fatal)
       case Over => r.state == Released && r.releases == 1 && r.holder == ByNobody && !r.active && (r.handedReusable ==> !r.fatal)
  }

  /** The record names a holder that really has the lease; after a fatal failure only a poisoned claim may. */
  predicate HolderSound(s: State, l: nat, r: Record) {
    match r.holder
    case ByPool => l in s.pending && !r.fatal
    case ByClient(c) => c < |s.clients| && s.clients[c].lease == Some(l) && !r.fatal
    case ByReplacement(c) => c < |s.clients| && s.clients[c].op == Checking(l) && !r.fatal
    case ByClaim(k) =>
      && k < |s.claims| && !s.claims[k].done && s.claims[k].lease == Some(l) && s.claims[k].client < |s.clients|
      && (r.fatal ==> !s.clients[s.claims[k].client].reusable)
    case ByNobody => true
  }

  predicate HeldBy(s: State, l: nat, holder: Holder) {
    l < |s.records| && s.records[l].holder == holder
  }

  /** An operation runs only on a lease its client holds, or held when the claim was made. */
  predicate RunsOnOwn(s: State, c: nat, l: nat) {
    && l < |s.records|
    && (|| s.records[l].holder == ByClient(c)
        || (s.records[l].holder.ByClaim? && s.records[l].holder.claim < |s.claims| && s.claims[s.records[l].holder.claim].client == c))
  }

  predicate ClientSound(s: State, c: nat, client: Client) {
    && (client.lease.Some? ==> HeldBy(s, client.lease.value, ByClient(c)))
    && (client.claimed ==> client.state != Open && client.lease == None)
    && (client.claimed <==> c !in s.leased)
    && (!client.claimed ==> client.state != Closed)
    && match client.op
       case Idle => true
       case Running(l) => RunsOnOwn(s, c, l) && (client.lease == None ==> client.claimed) && (client.lease.Some? ==> client.lease == Some(l))
       case Replacing(l) => l < |s.records| && s.records[l].holder == ByNobody && client.lease == None
       case Acquiring => client.lease == None
       case Checking(l) => HeldBy(s, l, ByReplacement(c)) && client.lease == None
       case Dropping(l, _) => l < |s.records| && s.records[l].holder == ByNobody && client.lease == None
  }

  predicate ClaimSound(s: State, k: nat, claim: Claim) {
    && claim.client < |s.clients| && s.clients[claim.client].claimed
    && (!claim.done && claim.lease.Some? ==> HeldBy(s, claim.lease.value, ByClaim(k)))
  }

  ghost predicate Invariant(s: State) {
    && (forall l :: 0 <= l < |s.records| ==> RecordSound(s.records[l]) && HolderSound(s, l, s.records[l]))
    && (forall l :: l in s.pending ==> HeldBy(s, l, ByPool))
    && (forall c :: 0 <= c < |s.clients| ==> ClientSound(s, c, s.clients[c]))
    && (forall c :: c in s.leased ==> c < |s.clients|)
    && (forall k :: 0 <= k < |s.claims| ==> ClaimSound(s, k, s.claims[k]))
    && (s.closed ==> s.leased == {})
  }

  // ---------------------------------------------------------------- every step keeps it

  /** Only records change: each stays sound, keeps its holder or gives it up, and is not newly fatal. */
  lemma {:induction false} RecordChangeKeepsInvariant(s: State, l: nat, r: Record)
    requires Invariant(s) && l < |s.records| && RecordSound(r) && r.holder == s.records[l].holder && r.fatal == s.records[l].fatal
    ensures Invariant(WithRecord(s, l, r))
  {
    var after := WithRecord(s, l, r);
    forall m | 0 <= m < |after.records| ensures RecordSound(after.records[m]) && HolderSound(after, m, after.records[m]) {
      assert RecordSound(s.records[m]) && HolderSound(s, m, s.records[m]);
    }
    forall c | 0 <= c < |after.clients| ensures ClientSound(after, c, after.clients[c]) {
      assert ClientSound(s, c, s.clients[c]);
    }
    forall k | 0 <= k < |after.claims| ensures ClaimSound(after, k, after.claims[k]) {
      assert ClaimSound(s, k, s.claims[k]);
    }
  }

  lemma {:induction false} IssueKeepsInvariant(s: State)
    requires Invariant(s)
    ensures Invariant(Next(s, Issue))
  {
    var after := Next(s, Issue);
    forall m | 0 <= m < |after.records| ensures RecordSound(after.records[m]) && HolderSound(after, m, after.records[m]) {
      assert m < |s.records| ==> RecordSound(s.records[m]) && HolderSound(s, m, s.records[m]);
    }
    forall c | 0 <= c < |after.clients| ensures ClientSound(after, c, after.clients[c]) {
      assert ClientSound(s, c, s.clients[c]);
    }
    forall k | 0 <= k < |after.claims| ensures ClaimSound(after, k, after.claims[k]) {
      assert ClaimSound(s, k, s.claims[k]);
    }
  }

  lemma {:induction false} PublishKeepsInvariant(s: State, l: nat)
    requires Invariant(s) && Enabled(s, Publish(l)) && !s.closed
    ensures Invariant(AfterPublish(s, l))
  {
    var after := AfterPublish(s, l);
    assert HeldBy(s, l, ByPool) && HolderSound(s, l, s.records[l]);
    forall m | 0 <= m < |after.records| ensures RecordSound(after.records[m]) && HolderSound(after, m, after.records[m]) {
      assert RecordSound(s.records[m]) && HolderSound(s, m, s.records[m]);
    }
    forall c | 0 <= c < |after.clients| ensures ClientSound(after, c, after.clients[c]) {
      assert c < |s.clients| ==> ClientSound(s, c, s.clients[c]);
    }
    forall k | 0 <= k < |after.claims| ensures ClaimSound(after, k, after.claims[k]) {
      assert ClaimSound(s, k, s.claims[k]);
    }
  }

  lemma {:induction false} GiveUpKeepsInvariant(s: State, l: nat)
    requires Invariant(s) && l in s.pending && l < |s.records|
    ensures Invariant(ReleaseApplication(s.(pending := s.pending - {l}), l, false))
  {
    var after := ReleaseApplication(s.(pending := s.pending - {l}), l, false);
    assert HeldBy(s, l, ByPool) && RecordSound(s.records[l]);
    forall m | 0 <= m < |after.records| ensures RecordSound(after.records[m]) && HolderSound(after, m, after.records[m]) {
      assert RecordSound(s.records[m]) && HolderSound(s, m, s.records[m]);
    }
    forall c | 0 <= c < |after.clients| ensures ClientSound(after, c, after.clients[c]) {
      assert ClientSound(s, c, s.clients[c]);
    }
    forall k | 0 <= k < |after.claims| ensures ClaimSound(after, k, after.claims[k]) {
      assert ClaimSound(s, k, s.claims[k]);
    }
  }

  /** Only one client changes, keeping its lease and never becoming reusable again by itself. */
  lemma {:induction false} ClientChangeKeepsInvariant(s: State, c: nat, client: Client)
    requires Invariant(s) && At(s, c) && client.lease == s.clients[c].lease && client.claimed == s.clients[c].claimed
    requires client.reusable ==> s.clients[c].reusable
    requires s.clients[c].op.Checking? ==> client.op == s.clients[c].op
    requires ClientSound(s, c, client)
    ensures Invariant(WithClient(s, c, client))
  {
    var after := WithClient(s, c, client);
    forall m | 0 <= m < |after.records| ensures RecordSound(after.records[m]) && HolderSound(after, m, after.records[m]) {
      assert RecordSound(s.records[m]) && HolderSound(s, m, s.records[m]);
    }
    forall d | 0 <= d < |after.clients| ensures ClientSound(after, d, after.clients[d]) {
      assert ClientSound(s, d, s.clients[d]);
    }
    forall k | 0 <= k < |after.claims| ensures ClaimSound(after, k, after.claims[k]) {
      assert ClaimSound(s, k, s.claims[k]);
    }
  }

  lemma {:induction false} FatalKeepsInvariant(s: State, c: nat)
    requires Invariant(s) && Enabled(s, OpFatal(c))
    ensures Invariant(AfterFatal(s, c))
  {
    if s.clients[c].lease == Some(s.clients[c].op.lease) {
      OwnFatalKeepsInvariant(s, c);
    } else {
      ClaimedFatalKeepsInvariant(s, c);
    }
  }

  lemma {:induction false} OwnFatalKeepsInvariant(s: State, c: nat)
    requires Invariant(s) && Enabled(s, OpFatal(c)) && s.clients[c].lease == Some(s.clients[c].op.lease)
    ensures Invariant(AfterFatal(s, c))
  {
    var after := AfterFatal(s, c);
    var l := s.clients[c].op.lease;
    assert ClientSound(s, c, s.clients[c]);
    assert RecordSound(s.records[l]) && HolderSound(s, l, s.records[l]);
    forall m | 0 <= m < |after.records| ensures RecordSound(after.records[m]) && HolderSound(after, m, after.records[m]) {
      assert RecordSound(s.records[m]) && HolderSound(s, m, s.records[m]);
    }
    forall d | 0 <= d < |after.clients| ensures ClientSound(after, d, after.clients[d]) {
      assert ClientSound(s, d, s.clients[d]);
    }
    forall j | 0 <= j < |after.claims| ensures ClaimSound(after, j, after.claims[j]) {
      assert ClaimSound(s, j, s.claims[j]);
    }
  }

  lemma {:induction false} ClaimedFatalKeepsInvariant(s: State, c: nat)
    requires Invariant(s) && Enabled(s, OpFatal(c)) && s.clients[c].lease != Some(s.clients[c].op.lease)
    ensures Invariant(AfterFatal(s, c))
  {
    var after := AfterFatal(s, c);
    var l := s.clients[c].op.lease;
    assert ClientSound(s, c, s.clients[c]);
    assert RecordSound(s.records[l]) && HolderSound(s, l, s.records[l]);
    forall m | 0 <= m < |after.records| ensures RecordSound(after.records[m]) && HolderSound(after, m, after.records[m]) {
      assert RecordSound(s.records[m]) && HolderSound(s, m, s.records[m]);
    }
    forall d | 0 <= d < |after.clients| ensures ClientSound(after, d, after.clients[d]) {
      assert ClientSound(s, d, s.clients[d]);
    }
    forall j | 0 <= j < |after.claims| ensures ClaimSound(after, j, after.claims[j]) {
      assert ClaimSound(s, j, s.claims[j]);
    }
  }

  lemma {:induction false} ReplacementAcquiredKeepsInvariant(s: State, c: nat, ok: bool)
    requires Invariant(s) && Enabled(s, ReplacementAcquired(c, ok))
    ensures Invariant(AfterReplacementAcquired(s, c, ok))
  {
    var after := AfterReplacementAcquired(s, c, ok);
    assert ClientSound(s, c, s.clients[c]);
    forall m | 0 <= m < |after.records| ensures RecordSound(after.records[m]) && HolderSound(after, m, after.records[m]) {
      assert m < |s.records| ==> RecordSound(s.records[m]) && HolderSound(s, m, s.records[m]);
    }
    forall d | 0 <= d < |after.clients| ensures ClientSound(after, d, after.clients[d]) {
      assert ClientSound(s, d, s.clients[d]);
    }
    forall k | 0 <= k < |after.claims| ensures ClaimSound(after, k, after.claims[k]) {
      assert ClaimSound(s, k, s.claims[k]);
    }
  }

  lemma {:induction false} ReplacementCheckedKeepsInvariant(s: State, c: nat, ok: bool)
    requires Invariant(s) && Enabled(s, ReplacementChecked(c, ok))
    ensures Invariant(AfterReplacementChecked(s, c, ok))
  {
    if ok && s.clients[c].state == Open {
      InstallKeepsInvariant(s, c);
    } else {
      DropKeepsInvariant(s, c, ok);
    }
  }

  lemma {:induction false} InstallKeepsInvariant(s: State, c: nat)
    requires Invariant(s) && Enabled(s, ReplacementChecked(c, true)) && s.clients[c].state == Open
    ensures Invariant(AfterReplacementChecked(s, c, true))
  {
    var after := AfterReplacementChecked(s, c, true);
    var l := s.clients[c].op.lease;
    assert ClientSound(s, c, s.clients[c]);
    assert RecordSound(s.records[l]) && HolderSound(s, l, s.records[l]);
    forall m | 0 <= m < |after.records| ensures RecordSound(after.records[m]) && HolderSound(after, m, after.records[m]) {
      assert RecordSound(s.records[m]) && HolderSound(s, m, s.records[m]);
    }
    forall d | 0 <= d < |after.clients| ensures ClientSound(after, d, after.clients[d]) {
      assert ClientSound(s, d, s.clients[d]);
    }
    forall j | 0 <= j < |after.claims| ensures ClaimSound(after, j, after.claims[j]) {
      assert ClaimSound(s, j, s.claims[j]);
    }
  }

  lemma {:induction false} DropKeepsInvariant(s: State, c: nat, ok: bool)
    requires Invariant(s) && Enabled(s, ReplacementChecked(c, ok)) && (!ok || s.clients[c].state != Open)
    ensures Invariant(AfterReplacementChecked(s, c, ok))
  {
    var after := AfterReplacementChecked(s, c, ok);
    var l := s.clients[c].op.lease;
    assert ClientSound(s, c, s.clients[c]);
    assert RecordSound(s.records[l]) && HolderSound(s, l, s.records[l]);
    forall m | 0 <= m < |after.records| ensures RecordSound(after.records[m]) && HolderSound(after, m, after.records[m]) {
      assert RecordSound(s.records[m]) && HolderSound(s, m, s.records[m]);
    }
    forall d | 0 <= d < |after.clients| ensures ClientSound(after, d, after.clients[d]) {
      assert ClientSound(s, d, s.clients[d]);
    }
    forall j | 0 <= j < |after.claims| ensures ClaimSound(after, j, after.claims[j]) {
      assert ClaimSound(s, j, s.claims[j]);
    }
  }

  /** One claim; the gate may be closing, so closed with clients still to claim is allowed here. */
  lemma {:induction false} ClaimKeepsInvariant(s: State, c: nat, closing: bool)
    requires Invariant(s) && c in s.leased
    ensures Invariant(ClaimClient(s, c, closing))
    ensures ClaimClient(s, c, closing).leased == s.leased - {c} && ClaimClient(s, c, closing).closed == s.closed
  {
    var after := ClaimClient(s, c, closing);
    var client := s.clients[c];
    assert ClientSound(s, c, client);
    if client.lease.Some? {
      assert RecordSound(s.records[client.lease.value]) && HolderSound(s, client.lease.value, s.records[client.lease.value]);
    }
    forall m | 0 <= m < |after.records| ensures RecordSound(after.records[m]) && HolderSound(after, m, after.records[m]) {
      assert RecordSound(s.records[m]) && HolderSound(s, m, s.records[m]);
    }
    forall d | 0 <= d < |after.clients| ensures ClientSound(after, d, after.clients[d]) {
      assert ClientSound(s, d, s.clients[d]);
    }
    forall k | 0 <= k < |after.claims| ensures ClaimSound(after, k, after.claims[k]) {
      assert k < |s.claims| ==> ClaimSound(s, k, s.claims[k]);
    }
  }

  lemma {:induction false} BatchKeepsInvariant(s: State, batch: seq<nat>, closing: bool)
    requires Invariant(s) && ValidBatch(s, batch)
    ensures Invariant(ClaimAll(s, batch, closing))
    ensures ClaimAll(s, batch, closing).leased == s.leased - (set c | c in batch) && ClaimAll(s, batch, closing).closed == s.closed
  {
    if batch != [] {
      var n := |batch| - 1;
      forall c | c in batch[..n] ensures c in batch {}
      BatchKeepsInvariant(s, batch[..n], closing);
      assert batch[n] in batch && batch[n] !in batch[..n];
      ClaimKeepsInvariant(ClaimAll(s, batch[..n], closing), batch[n], closing);
      assert batch == batch[..n] + [batch[n]];
    }
  }

  lemma {:induction false} CloseAllKeepsInvariant(s: State, order: seq<nat>)
    requires Invariant(s) && Enabled(s, CloseAll(order)) && !s.closed
    ensures Invariant(ClaimAll(s, order, true).(closed := true))
  {
    BatchKeepsInvariant(s, order, true);
    var claimed := ClaimAll(s, order, true);
    assert claimed.leased == {};
    var after := claimed.(closed := true);
    forall m | 0 <= m < |after.records| ensures RecordSound(after.records[m]) && HolderSound(after, m, after.records[m]) {
      assert RecordSound(claimed.records[m]) && HolderSound(claimed, m, claimed.records[m]);
    }
    forall d | 0 <= d < |after.clients| ensures ClientSound(after, d, after.clients[d]) {
      assert ClientSound(claimed, d, claimed.clients[d]);
    }
    forall k | 0 <= k < |after.claims| ensures ClaimSound(after, k, after.claims[k]) {
      assert ClaimSound(claimed, k, claimed.claims[k]);
    }
  }

  lemma {:induction false} RecycleKeepsInvariant(s: State, k: nat, room: bool)
    requires Invariant(s) && Enabled(s, Recycle(k, room))
    ensures Invariant(AfterRecycle(s, k, room))
  {
    if s.claims[k].lease.None? {
      EmptyClaimKeepsInvariant(s, k, room);
    } else {
      LeaseClaimKeepsInvariant(s, k, room);
    }
  }

  lemma {:induction false} EmptyClaimKeepsInvariant(s: State, k: nat, room: bool)
    requires Invariant(s) && Enabled(s, Recycle(k, room)) && s.claims[k].lease.None?
    ensures Invariant(AfterRecycle(s, k, room))
  {
    var after := AfterRecycle(s, k, room);
    forall m | 0 <= m < |after.records| ensures RecordSound(after.records[m]) && HolderSound(after, m, after.records[m]) {
      assert RecordSound(s.records[m]) && HolderSound(s, m, s.records[m]);
    }
    forall d | 0 <= d < |after.clients| ensures ClientSound(after, d, after.clients[d]) {
      assert ClientSound(s, d, s.clients[d]);
    }
    forall j | 0 <= j < |after.claims| ensures ClaimSound(after, j, after.claims[j]) {
      assert ClaimSound(s, j, s.claims[j]);
    }
  }

  lemma {:induction false} LeaseClaimKeepsInvariant(s: State, k: nat, room: bool)
    requires Invariant(s) && Enabled(s, Recycle(k, room)) && s.claims[k].lease.Some?
    ensures Invariant(AfterRecycle(s, k, room))
  {
    var after := AfterRecycle(s, k, room);
    var l := s.claims[k].lease.value;
    assert ClaimSound(s, k, s.claims[k]);
    assert RecordSound(s.records[l]) && HolderSound(s, l, s.records[l]);
    forall m | 0 <= m < |after.records| ensures RecordSound(after.records[m]) && HolderSound(after, m, after.records[m]) {
      assert RecordSound(s.records[m]) && HolderSound(s, m, s.records[m]);
    }
    forall d | 0 <= d < |after.clients| ensures ClientSound(after, d, after.clients[d]) {
      assert ClientSound(s, d, s.clients[d]);
    }
    forall j | 0 <= j < |after.claims| ensures ClaimSound(after, j, after.claims[j]) {
      assert ClaimSound(s, j, s.claims[j]);
    }
  }

  predicate ClientEvent(e: Event) {
    e.OpStarts? || e.OpDone? || e.ReplacementReleased? || e.ReplacementDropped?
  }

  lemma {:induction false} ClientStepKeepsInvariant(s: State, e: Event)
    requires Invariant(s) && Enabled(s, e) && ClientEvent(e)
    ensures Invariant(Next(s, e))
  {
    assert ClientSound(s, e.c, s.clients[e.c]);
    ClientChangeKeepsInvariant(s, e.c, Next(s, e).clients[e.c]);
  }

  predicate RecordEvent(e: Event) {
    e.TailSettled? || e.ResetEnded? || e.PoolReleaseEnded?
  }

  lemma {:induction false} RecordStepKeepsInvariant(s: State, e: Event)
    requires Invariant(s) && Enabled(s, e) && RecordEvent(e)
    ensures Invariant(Next(s, e))
  {
    assert RecordSound(s.records[e.l]);
    RecordChangeKeepsInvariant(s, e.l, Next(s, e).records[e.l]);
  }

  lemma {:induction false} OwnerOpKeepsInvariant(s: State, e: Event)
    requires Invariant(s) && Enabled(s, e) && (e.OwnerOpStarts? || e.OwnerOpEnds?)
    ensures Invariant(Next(s, e))
  {
    var l := s.clients[e.c].op.lease;
    assert ClientSound(s, e.c, s.clients[e.c]);
    assert RecordSound(s.records[l]);
    RecordChangeKeepsInvariant(s, l, Next(s, e).records[l]);
  }

  lemma {:induction false} StepKeepsInvariant(s: State, e: Event)
    requires Invariant(s) && Enabled(s, e)
    ensures Invariant(Next(s, e))
  {
    if ClientEvent(e) {
      ClientStepKeepsInvariant(s, e);
    } else if RecordEvent(e) {
      RecordStepKeepsInvariant(s, e);
    } else if e.OwnerOpStarts? || e.OwnerOpEnds? {
      OwnerOpKeepsInvariant(s, e);
    } else {
      HolderStepKeepsInvariant(s, e);
    }
  }

  lemma {:induction false} HolderStepKeepsInvariant(s: State, e: Event)
    requires Invariant(s) && Enabled(s, e)
    requires !ClientEvent(e) && !RecordEvent(e) && !e.OwnerOpStarts? && !e.OwnerOpEnds?
    ensures Invariant(Next(s, e))
  {
    match e
    case Issue => IssueKeepsInvariant(s);
    case Publish(l) =>
      if s.closed {
        GiveUpKeepsInvariant(s, l);
      } else {
        PublishKeepsInvariant(s, l);
      }
    case GiveUp(l) => GiveUpKeepsInvariant(s, l);
    case OpFatal(c) => FatalKeepsInvariant(s, c);
    case ReplacementAcquired(c, ok) => ReplacementAcquiredKeepsInvariant(s, c, ok);
    case ReplacementChecked(c, ok) => ReplacementCheckedKeepsInvariant(s, c, ok);
    case Release(batch) =>
      if ValidBatch(s, batch) {
        BatchKeepsInvariant(s, batch, false);
      }
    case CloseAll(order) =>
      if !s.closed {
        CloseAllKeepsInvariant(s, order);
      }
    case Recycle(k, room) => RecycleKeepsInvariant(s, k, room);
  }

  // ---------------------------------------------------------------- runs

  ghost predicate Run(s: State, events: seq<Event>)
    decreases |events|
  {
    events == [] || (Enabled(s, events[0]) && Run(Next(s, events[0]), events[1..]))
  }

  ghost function After(s: State, events: seq<Event>): State
    requires Run(s, events)
    decreases |events|
  {
    if events == [] then s else After(Next(s, events[0]), events[1..])
  }

  ghost predicate RunTo(start: State, events: seq<Event>, s: State) {
    IsInitial(start) && Run(start, events) && After(start, events) == s
  }

  ghost predicate Reachable(s: State) {
    exists start, events :: RunTo(start, events, s)
  }

  lemma {:induction false} RunKeepsInvariant(s: State, events: seq<Event>)
    requires Invariant(s) && Run(s, events)
    ensures Invariant(After(s, events))
    decreases |events|
  {
    if events != [] {
      StepKeepsInvariant(s, events[0]);
      RunKeepsInvariant(Next(s, events[0]), events[1..]);
    }
  }

  lemma {:induction false} ReachableInvariant(s: State)
    requires Reachable(s)
    ensures Invariant(s)
  {
    var start, events :| RunTo(start, events, s);
    RunKeepsInvariant(start, events);
  }

  /**
   * In every interleaving each lease is handed to the pool at most once, not while an admitted
   * operation runs on it, as reusable only if no admitted operation failed fatally, and no
   * operation enters after the release claim; a released record was handed over exactly once.
   */
  lemma {:induction false} LeaseRulesHold(s: State, l: nat)
    requires Reachable(s) && l < |s.records|
    ensures !s.records[l].broken && s.records[l].releases <= 1
    ensures s.records[l].state == Released ==> s.records[l].releases == 1
    ensures s.records[l].handedReusable && s.records[l].releases == 1 ==> !s.records[l].fatal
  {
    ReachableInvariant(s);
    assert RecordSound(s.records[l]);
  }

  /** Nothing is under way any more: no acquire, no leased client, no claim, no operation, no release. */
  ghost predicate AtRest(s: State) {
    && s.pending == {} && s.leased == {}
    && (forall k :: 0 <= k < |s.claims| ==> s.claims[k].done)
    && (forall c :: 0 <= c < |s.clients| ==> s.clients[c].op == Idle)
    && (forall l :: 0 <= l < |s.records| ==> s.records[l].stage == Held || s.records[l].stage == Over)
  }

  /** Then every lease ever issued, replacements included, has been handed over exactly once. */
  lemma {:induction false} EveryLeaseIsReleasedOnce(s: State, l: nat)
    requires Reachable(s) && AtRest(s) && l < |s.records|
    ensures s.records[l].state == Released && s.records[l].releases == 1
  {
    ReachableInvariant(s);
    assert RecordSound(s.records[l]) && HolderSound(s, l, s.records[l]);
  }

  /**
   * A client that the pool counts as leased can always be claimed, so a batch that passed its
   * check never stops half way; and once claimed, a client starts no further operation.
   */
  lemma {:induction false} LeasedMeansClaimable(s: State, c: nat)
    requires Reachable(s) && c < |s.clients|
    ensures c in s.leased ==> !s.clients[c].claimed && s.clients[c].state != Closed
    ensures c !in s.leased && s.clients[c].op == Idle ==> Next(s, OpStarts(c)) == s
  {
    ReachableInvariant(s);
    assert ClientSound(s, c, s.clients[c]);
  }

  // ---------------------------------------------------------------- the mutable form

  /** The pool, its clients and the owner's records; each method is a stretch of one of their operations. */
  class PooledLeases {
    var closed: bool
    var records: seq<Record>
    var pending: set<nat>
    var clients: seq<Client>
    var leased: set<nat>
    var claims: seq<Claim>

    ghost function View(): State
      reads this
    {
      State(closed, records, pending, clients, leased, claims)
    }

    constructor ()
      ensures IsInitial(View())
    {
      closed, records, pending, clients, leased, claims := false, [], {}, [], {}, [];
    }

    /** The owner admits an operation only on a lease that is owned and idle. */
    method RunApplicationOperation(c: nat) returns (admitted: bool)
      requires Invariant(View()) && Enabled(View(), OwnerOpStarts(c))
      modifies this
      ensures admitted && View() == Next(old(View()), OwnerOpStarts(c))
    {
      var l := clients[c].op.lease;
      assert ClientSound(View(), c, clients[c]) && RecordSound(records[l]);
      admitted := records[l].state == Owned && !records[l].active;
      if admitted {
        records := records[l := records[l].(active := true)];
      }
    }

    method ReleaseLease(l: nat, reusable: bool)
      modifies this`records
      ensures View() == ReleaseApplication(old(View()), l, reusable)
    {
      if l < |records| && records[l].state == Owned {
        records := records[l := records[l].(state := ReleaseClaimed, stage := AwaitTail(reusable), holder := ByNobody)];
      }
    }

    /** The operation tail has settled: reset a lease that may be reused, hand over the others. */
    method ReleaseAfterTail(l: nat)
      requires Enabled(View(), TailSettled(l))
      modifies this`records
      ensures View() == Next(old(View()), TailSettled(l))
    {
      var r := records[l];
      if r.stage.reusable {
        records := records[l := r.(stage := Resetting)];
      } else {
        records := records[l := PoolRelease(r, false)];
      }
    }

    method ReleaseAfterReset(l: nat, ok: bool)
      requires Enabled(View(), ResetEnded(l, ok))
      modifies this`records
      ensures View() == Next(old(View()), ResetEnded(l, ok))
    {
      records := records[l := PoolRelease(records[l], ok)];
    }

    /** The head of the fatal replacement. */
    method FatalFailure(c: nat)
      requires Enabled(View(), OpFatal(c))
      modifies this
      ensures View() == Next(old(View()), OpFatal(c))
    {
      var client := clients[c];
      var l := client.op.lease;
      records := records[l := records[l].(fatal := true)];
      if client.lease != Some(l) {
        if client.claimed && client.lease == None {
          client := client.(reusable := false);
        }
        clients := clients[c := client.(op := Idle)];
      } else {
        clients := clients[c := client.(reusable := false, lease := None, op := Replacing(l))];
        ReleaseLease(l, false);
      }
    }

    /** The tail of the fatal replacement: install the new lease, or give it back unused. */
    method InstallReplacement(c: nat, ok: bool) returns (installed: bool)
      requires Enabled(View(), ReplacementChecked(c, ok))
      modifies this
      ensures View() == Next(old(View()), ReplacementChecked(c, ok))
      ensures installed <==> ok && old(clients[c].state) == Open
    {
      var client := clients[c];
      var l := client.op.lease;
      installed := ok && client.state == Open;
      if installed {
        clients := clients[c := client.(lease := Some(l), reusable := true, op := Idle)];
        records := records[l := records[l].(holder := ByClient(c))];
      } else {
        clients := clients[c := client.(op := Dropping(l, !ok))];
        ReleaseLease(l, false);
      }
    }

    method Take(c: nat, closing: bool)
      requires c < |clients|
      modifies this
      ensures View() == ClaimClient(old(View()), c, closing)
    {
      var client := clients[c];
      var k := |claims|;
      clients := clients[c := client.(state := Closed, lease := None, claimed := true)];
      claims := claims + [Claim(c, client.lease, closing, false)];
      leased := leased - {c};
      if client.lease.Some? && client.lease.value < |records| {
        records := records[client.lease.value := records[client.lease.value].(holder := ByClaim(k))];
      }
    }

    /** The loop over a batch that looks for strangers and repetitions before anything is claimed. */
    method ValidateBatch(batch: seq<nat>) returns (ok: bool)
      ensures ok <==> ValidBatch(View(), batch)
    {
      var seen: set<nat> := {};
      for index := 0 to |batch|
        invariant forall c :: c in seen <==> c in batch[..index]
        invariant Distinct(batch[..index]) && forall c :: c in batch[..index] ==> c in leased
      {
        if batch[index] in seen {
          return false;
        }
        seen := seen + {batch[index]};
        assert batch[..index + 1] == batch[..index] + [batch[index]];
        if batch[index] !in leased {
          assert batch[index] in batch;
          return false;
        }
      }
      assert batch[..|batch|] == batch;
      return true;
    }

    method TakeAll(batch: seq<nat>, closing: bool)
      requires forall c :: c in batch ==> c < |clients|
      modifies this
      ensures View() == ClaimAll(old(View()), batch, closing)
    {
      assert batch[..0] == [];
      for index := 0 to |batch|
        invariant View() == ClaimAll(old(View()), batch[..index], closing) && |clients| == old(|clients|)
      {
        assert batch[..index + 1][..index] == batch[..index] && batch[index] in batch;
        Take(batch[index], closing);
      }
      assert batch[..|batch|] == batch;
    }

    method ReleaseBatch(batch: seq<nat>) returns (accepted: bool)
      requires Invariant(View())
      modifies this
      ensures View() == Next(old(View()), Release(batch))
      ensures accepted <==> ValidBatch(old(View()), batch)
    {
      accepted := ValidateBatch(batch);
      if accepted {
        TakeAll(batch, false);
      }
    }

    method CloseAllClients(order: seq<nat>)
      requires Invariant(View()) && Enabled(View(), CloseAll(order))
      modifies this
      ensures View() == Next(old(View()), CloseAll(order))
    {
      if !closed {
        TakeAll(order, true);
        closed := true;
      }
    }

    /** A claim whose client's operations are over; idle retention decides whether reuse has room. */
    method RecycleClaim(k: nat, room: bool)
      requires Enabled(View(), Recycle(k, room))
      modifies this
      ensures View() == Next(old(View()), Recycle(k, room))
    {
      var claim := claims[k];
      claims := claims[k := claim.(done := true)];
      if claim.lease.Some? {
        var reusable := !claim.closing && !closed && clients[claim.client].reusable && room;
        ReleaseLease(claim.lease.value, reusable);
      }
    }
  }
}
