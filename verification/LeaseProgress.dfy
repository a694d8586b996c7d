/**
 * No lease is stranded: whatever acquires, operations, replacements, releases and claims are under
 * way, the pool can be closed and all of them can end, and then every lease has been handed back.
 */
module LeaseProgress {
  import opened Wrappers
  import opened Leases
  import opened Totals

  // ---------------------------------------------------------------- who runs an admitted operation

  ghost predicate RunsOn(s: State, l: nat) {
    exists c :: 0 <= c < |s.clients| && s.clients[c].op == Running(l)
  }

  /** An operation admitted on a lease is that of a client. */
  ghost predicate ActiveSound(s: State) {
    forall l :: 0 <= l < |s.records| && s.records[l].active ==> RunsOn(s, l)
  }

  /** Clients that run keep running, and no record becomes active. */
  lemma {:induction false} RunningStays(s: State, after: State)
    requires ActiveSound(s) && |s.clients| <= |after.clients|
    requires forall c :: 0 <= c < |s.clients| && s.clients[c].op.Running? ==>
      after.clients[c].op == s.clients[c].op
      || (s.clients[c].op.lease < |s.records| && !s.records[s.clients[c].op.lease].active)
    requires forall l :: 0 <= l < |after.records| && after.records[l].active ==> l < |s.records| && s.records[l].active
    ensures ActiveSound(after)
  {
    forall l | 0 <= l < |after.records| && after.records[l].active ensures RunsOn(after, l) {
      assert RunsOn(s, l);
      var c :| 0 <= c < |s.clients| && s.clients[c].op == Running(l);
      assert after.clients[c].op == Running(l);
    }
  }

  lemma {:induction false} ClaimKeepsOperations(s: State, c: nat, closing: bool)
    ensures
      var after := ClaimClient(s, c, closing);
      && |after.clients| == |s.clients| && |after.records| == |s.records|
      && (forall d :: 0 <= d < |s.clients| ==> after.clients[d].op == s.clients[d].op)
      && (forall l :: 0 <= l < |s.records| ==> after.records[l].active == s.records[l].active)
  {}

  lemma {:induction false} ClaimsKeepOperations(s: State, batch: seq<nat>, closing: bool)
    ensures
      var after := ClaimAll(s, batch, closing);
      && |after.clients| == |s.clients| && |after.records| == |s.records|
      && (forall d :: 0 <= d < |s.clients| ==> after.clients[d].op == s.clients[d].op)
      && (forall l :: 0 <= l < |s.records| ==> after.records[l].active == s.records[l].active)
  {
    if batch != [] {
      var n := |batch| - 1;
      ClaimsKeepOperations(s, batch[..n], closing);
      ClaimKeepsOperations(ClaimAll(s, batch[..n], closing), batch[n], closing);
    }
  }

  lemma {:induction false} StepKeepsActiveSound(s: State, e: Event)
    requires Invariant(s) && ActiveSound(s) && Enabled(s, e)
    ensures ActiveSound(Next(s, e))
  {
    match e
    case OwnerOpStarts(c) => StartKeepsActiveSound(s, c);
    case Release(batch) =>
      ClaimsKeepOperations(s, batch, false);
      RunningStays(s, Next(s, e));
    case CloseAll(order) =>
      ClaimsKeepOperations(s, order, true);
      RunningStays(s, Next(s, e));
    case _ =>
      if ClientEvent(e) || RecordEvent(e) {
        PlainStepKeepsActiveSound(s, e);
      } else {
        OtherKeepsActiveSound(s, e);
      }
  }

  lemma {:induction false} PlainStepKeepsActiveSound(s: State, e: Event)
    requires Invariant(s) && ActiveSound(s) && Enabled(s, e) && (ClientEvent(e) || RecordEvent(e))
    ensures ActiveSound(Next(s, e))
  {
    RunningStays(s, Next(s, e));
  }

  lemma {:induction false} StartKeepsActiveSound(s: State, c: nat)
    requires ActiveSound(s) && Enabled(s, OwnerOpStarts(c))
    ensures ActiveSound(Next(s, OwnerOpStarts(c)))
  {
    var after := Next(s, OwnerOpStarts(c));
    forall l | 0 <= l < |after.records| && after.records[l].active ensures RunsOn(after, l) {
      if l == s.clients[c].op.lease {
        assert after.clients[c].op == Running(l);
      } else {
        assert RunsOn(s, l);
      }
    }
  }

  lemma {:induction false} OtherKeepsActiveSound(s: State, e: Event)
    requires Invariant(s) && ActiveSound(s) && Enabled(s, e) && !e.OwnerOpStarts? && !e.Release? && !e.CloseAll?
    requires !ClientEvent(e) && !RecordEvent(e)
    ensures ActiveSound(Next(s, e))
  {
    RunningStays(s, Next(s, e));
  }

  lemma {:induction false} RunKeepsActiveSound(s: State, events: seq<Event>)
    requires Invariant(s) && ActiveSound(s) && Run(s, events)
    ensures ActiveSound(After(s, events))
    decreases |events|
  {
    if events != [] {
      StepKeepsInvariant(s, events[0]);
      StepKeepsActiveSound(s, events[0]);
      RunKeepsActiveSound(Next(s, events[0]), events[1..]);
    }
  }

  // ---------------------------------------------------------------- what is left to do

  function RecordWeight(r: Record): nat {
    (match r.stage
     case Held => 4
     case AwaitTail(_) => 3
     case Resetting => 2
     case Releasing => 1
     case Over => 0)
    + if r.active then 1 else 0
  }

  function ClientWeight(client: Client): nat {
    match client.op
    case Idle => 0
    case Running(_) | Acquiring | Dropping(_, _) => 1
    case Checking(_) | Replacing(_) => 2
  }

  function ClaimWeight(claim: Claim): nat {
    if claim.done then 0 else 1
  }

  function Work(s: State): nat {
    |s.pending| + Total(s.records, RecordWeight) + Total(s.clients, ClientWeight) + Total(s.claims, ClaimWeight)
  }

  lemma {:induction false} RecordWork(s: State, l: nat, r: Record)
    requires l < |s.records|
    ensures Work(WithRecord(s, l, r)) == Work(s) - RecordWeight(s.records[l]) + RecordWeight(r)
  {
    TotalUpdate(s.records, RecordWeight, l, r);
  }

  lemma {:induction false} ClientWork(s: State, c: nat, client: Client)
    requires c < |s.clients|
    ensures Work(WithClient(s, c, client)) == Work(s) - ClientWeight(s.clients[c]) + ClientWeight(client)
  {
    TotalUpdate(s.clients, ClientWeight, c, client);
  }

  lemma {:induction false} ReleaseIsNoWork(s: State, l: nat, reusable: bool)
    requires l < |s.records| ==> RecordSound(s.records[l])
    ensures Work(ReleaseApplication(s, l, reusable)) <= Work(s)
  {
    if l < |s.records| && s.records[l].state == Owned {
      RecordWork(s, l, s.records[l].(state := ReleaseClaimed, stage := AwaitTail(reusable), holder := ByNobody));
    }
  }

  // ---------------------------------------------------------------- one step closer

  ghost predicate Closer(s: State, e: Event) {
    Enabled(s, e) && Next(s, e).closed == s.closed && Work(Next(s, e)) < Work(s)
  }

  lemma {:induction false} GiveUpIsCloser(s: State, l: nat)
    requires Invariant(s) && l in s.pending
    ensures Closer(s, GiveUp(l))
  {
    assert HeldBy(s, l, ByPool) && RecordSound(s.records[l]);
    var taken := s.(pending := s.pending - {l});
    assert |taken.pending| == |s.pending| - 1;
    ReleaseIsNoWork(taken, l, false);
  }

  /** A running client's operation ends, admitted or not. */
  lemma {:induction false} EndIsCloser(s: State, c: nat) returns (e: Event)
    requires Invariant(s) && c < |s.clients| && s.clients[c].op.Running?
    ensures Closer(s, e)
  {
    assert ClientSound(s, c, s.clients[c]);
    var l := s.clients[c].op.lease;
    if s.records[l].active {
      e := OwnerOpEnds(c);
      RecordWork(s, l, s.records[l].(active := false));
    } else {
      e := OpDone(c);
      ClientWork(s, c, s.clients[c].(op := Idle));
    }
  }

  predicate OnItsWay(r: Record) {
    r.stage.AwaitTail? || r.stage == Resetting || r.stage == Releasing
  }

  lemma {:induction false} TailIsCloser(s: State, l: nat)
    requires Enabled(s, TailSettled(l))
    ensures Closer(s, TailSettled(l))
  {
    var r := s.records[l];
    RecordWork(s, l, if r.stage.reusable then r.(stage := Resetting) else PoolRelease(r, false));
  }

  lemma {:induction false} ResetIsCloser(s: State, l: nat)
    requires Enabled(s, ResetEnded(l, false))
    ensures Closer(s, ResetEnded(l, false))
  {
    RecordWork(s, l, PoolRelease(s.records[l], false));
  }

  lemma {:induction false} HandOverIsCloser(s: State, l: nat)
    requires Enabled(s, PoolReleaseEnded(l))
    ensures Closer(s, PoolReleaseEnded(l))
  {
    RecordWork(s, l, s.records[l].(state := Released, stage := Over));
  }

  /** A release on its way goes on once no operation runs on the lease. */
  lemma {:induction false} ReleaseIsCloser(s: State, l: nat) returns (e: Event)
    requires l < |s.records| && OnItsWay(s.records[l]) && !s.records[l].active
    ensures Closer(s, e)
  {
    if s.records[l].stage.AwaitTail? {
      TailIsCloser(s, l);
      e := TailSettled(l);
    } else if s.records[l].stage == Resetting {
      ResetIsCloser(s, l);
      e := ResetEnded(l, false);
    } else {
      HandOverIsCloser(s, l);
      e := PoolReleaseEnded(l);
    }
  }

  lemma {:induction false} NobodysIsReleased(s: State, l: nat)
    requires Invariant(s) && HeldBy(s, l, ByNobody) && !OnItsWay(s.records[l])
    ensures s.records[l].state == Released
  {
    assert RecordSound(s.records[l]);
  }

  lemma {:induction false} ReplacingIsCloser(s: State, c: nat)
    requires Enabled(s, ReplacementReleased(c, true))
    ensures Closer(s, ReplacementReleased(c, true))
  {
    var client := s.clients[c];
    ClientWork(s, c, client.(op := if client.state == Open then Acquiring else Idle));
  }

  lemma {:induction false} AcquiringIsCloser(s: State, c: nat)
    requires Enabled(s, ReplacementAcquired(c, false))
    ensures Closer(s, ReplacementAcquired(c, false))
  {
    ClientWork(s, c, s.clients[c].(state := Faulted, op := Idle));
  }

  lemma {:induction false} DroppingIsCloser(s: State, c: nat)
    requires Enabled(s, ReplacementDropped(c, true))
    ensures Closer(s, ReplacementDropped(c, true))
  {
    var client := s.clients[c];
    ClientWork(s, c, client.(state := if client.op.fault then Faulted else client.state, op := Idle));
  }

  /** A replacement goes on once the releases it waits for are over. */
  lemma {:induction false} ReplacementIsCloser(s: State, c: nat) returns (e: Event)
    requires Invariant(s) && c < |s.clients| && s.clients[c].op != Idle && !s.clients[c].op.Running?
    requires forall l :: 0 <= l < |s.records| ==> !OnItsWay(s.records[l])
    ensures Closer(s, e)
  {
    assert ClientSound(s, c, s.clients[c]);
    match s.clients[c].op
    case Replacing(l) =>
      NobodysIsReleased(s, l);
      ReplacingIsCloser(s, c);
      e := ReplacementReleased(c, true);
    case Acquiring =>
      AcquiringIsCloser(s, c);
      e := ReplacementAcquired(c, false);
    case Checking(l) =>
      CheckingIsCloser(s, c);
      e := ReplacementChecked(c, false);
    case Dropping(l, fault) =>
      NobodysIsReleased(s, l);
      DroppingIsCloser(s, c);
      e := ReplacementDropped(c, true);
  }

  lemma {:induction false} CheckingIsCloser(s: State, c: nat)
    requires Invariant(s) && c < |s.clients| && s.clients[c].op.Checking? && ClientSound(s, c, s.clients[c])
    ensures Closer(s, ReplacementChecked(c, false))
  {
    var client := s.clients[c];
    var l := client.op.lease;
    assert RecordSound(s.records[l]);
    ClientWork(s, c, client.(op := Dropping(l, true)));
    ReleaseIsNoWork(WithClient(s, c, client.(op := Dropping(l, true))), l, false);
  }

  lemma {:induction false} RecycleIsCloser(s: State, k: nat)
    requires Invariant(s) && k < |s.claims| && !s.claims[k].done
    requires forall c :: 0 <= c < |s.clients| ==> s.clients[c].op == Idle
    ensures Closer(s, Recycle(k, false))
  {
    var claim := s.claims[k];
    assert ClaimSound(s, k, claim);
    TotalUpdate(s.claims, ClaimWeight, k, claim.(done := true));
    var processed := s.(claims := s.claims[k := claim.(done := true)]);
    assert Work(processed) == Work(s) - 1;
    if claim.lease.Some? {
      assert RecordSound(processed.records[claim.lease.value]);
      ReleaseIsNoWork(processed, claim.lease.value, false);
    }
  }

  /** In a closed pool that is not at rest some step brings it closer. */
  lemma {:induction false} StepTowardsRest(s: State) returns (e: Event)
    requires Invariant(s) && ActiveSound(s) && s.closed && !AtRest(s)
    ensures Closer(s, e)
  {
    if l :| l in s.pending {
      GiveUpIsCloser(s, l);
      e := GiveUp(l);
    } else if c: nat :| c < |s.clients| && s.clients[c].op.Running? {
      e := EndIsCloser(s, c);
    } else if l: nat :| l < |s.records| && OnItsWay(s.records[l]) {
      assert s.records[l].active ==> RunsOn(s, l);
      e := ReleaseIsCloser(s, l);
    } else if c: nat :| c < |s.clients| && s.clients[c].op != Idle {
      e := ReplacementIsCloser(s, c);
    } else {
      var k: nat :| k < |s.claims| && !s.claims[k].done;
      RecycleIsCloser(s, k);
      e := Recycle(k, false);
    }
  }

  lemma {:induction false} ClosedComesToRest(s: State) returns (events: seq<Event>)
    requires Invariant(s) && ActiveSound(s) && s.closed
    ensures Run(s, events) && AtRest(After(s, events))
    decreases Work(s)
  {
    if AtRest(s) {
      events := [];
    } else {
      var e := StepTowardsRest(s);
      StepKeepsInvariant(s, e);
      StepKeepsActiveSound(s, e);
      var rest := ClosedComesToRest(Next(s, e));
      events := [e] + rest;
      assert events[1..] == rest;
    }
  }

  lemma {:induction false} InSomeOrder(members: set<nat>) returns (order: seq<nat>)
    ensures Distinct(order) && forall c :: c in order <==> c in members
    decreases members
  {
    if members == {} {
      order := [];
    } else {
      var c :| c in members;
      var rest := InSomeOrder(members - {c});
      order := rest + [c];
    }
  }

  /**
   * However a run went so far, the pool can be closed and everything under way can end, and then
   * each lease ever issued, replacements included, has been handed back exactly once.
   */
  lemma {:induction false} NoLeaseIsStranded(s: State) returns (events: seq<Event>)
    requires Reachable(s)
    ensures Run(s, events) && AtRest(After(s, events))
    ensures
      var after := After(s, events);
      forall l :: 0 <= l < |after.records| ==> after.records[l].state == Released && after.records[l].releases == 1
  {
    var start, before :| RunTo(start, before, s);
    RunKeepsInvariant(start, before);
    RunKeepsActiveSound(start, before);
    var order := InSomeOrder(s.leased);
    var e := CloseAll(order);
    StepKeepsInvariant(s, e);
    StepKeepsActiveSound(s, e);
    var rest := ClosedComesToRest(Next(s, e));
    events := [e] + rest;
    assert events[1..] == rest;
    RunKeepsInvariant(s, events);
    var after := After(s, events);
    forall l | 0 <= l < |after.records| ensures after.records[l].state == Released && after.records[l].releases == 1 {
      assert RecordSound(after.records[l]) && HolderSound(after, l, after.records[l]);
    }
  }
}
