/**
 * What becomes of a client and its lease, step after step from any state in which an operation can
 * be called: how a lease reaches a client, how a fatal failure replaces it, how releases hand it over.
 */
module LeasePaths {
  import opened Wrappers
  import opened Leases

  /** The events are possible one after another and lead to the state. */
  ghost predicate Leads(s: State, events: seq<Event>, t: State)
    decreases |events|
  {
    if events == [] then s == t else Enabled(s, events[0]) && Leads(Next(s, events[0]), events[1..], t)
  }

  lemma {:induction false} LeadsIsRun(s: State, events: seq<Event>, t: State)
    ensures Leads(s, events, t) <==> Run(s, events) && After(s, events) == t
    decreases |events|
  {
    if events != [] && Enabled(s, events[0]) {
      LeadsIsRun(Next(s, events[0]), events[1..], t);
    }
  }

  ghost predicate Step(s: State, e: Event, t: State) {
    Enabled(s, e) && Next(s, e) == t
  }

  /** Steps from state to state, one after another. */
  lemma {:induction false} Chain(states: seq<State>, events: seq<Event>)
    requires |states| == |events| + 1
    requires forall n {:trigger events[n]} :: 0 <= n < |events| ==> Step(states[n], events[n], states[n + 1])
    ensures Leads(states[0], events, states[|events|])
    decreases |events|
  {
    if events != [] {
      assert Step(states[0], events[0], states[1]);
      forall n | 0 <= n < |events[1..]| ensures Step(states[1..][n], events[1..][n], states[1..][n + 1]) {
        assert Step(states[n + 1], events[n + 1], states[n + 2]);
      }
      Chain(states[1..], events[1..]);
    }
  }

  /** A lease that nobody has handed in, with a holder. */
  function HeldFor(holder: Holder): Record {
    Record(Owned, Held, false, holder, false, 0, false, false)
  }

  /** A lease that is being released, or has been; fatal tells whether an operation failed on it. */
  function Leaving(stage: Stage, fatal: bool): Record {
    Record(ReleaseClaimed, stage, false, ByNobody, fatal, 0, false, false)
  }

  function HandedIn(reusable: bool, fatal: bool): Record {
    Record(Released, Over, false, ByNobody, fatal, 1, reusable, false)
  }

  /** An open client, idle, with a lease of its own. */
  predicate HasLease(s: State, c: nat, l: nat) {
    c < |s.clients| && s.clients[c] == Client(Open, Some(l), false, true, Idle) && l < |s.records| && s.records[l] == HeldFor(ByClient(c))
  }

  function With(s: State, c: nat, client: Client, l: nat, r: Record): State
    requires c < |s.clients| && l < |s.records|
  {
    s.(clients := s.clients[c := client], records := s.records[l := r])
  }

  // ---------------------------------------------------------------- a lease reaches a client

  /** A lease that is issued and published gives the pool one more client, with that lease. */
  lemma {:induction false} PublishedLeaseHasClient(s: State)
    requires !s.closed && |s.records| !in s.pending
    ensures
      var l, c := |s.records|, |s.clients|;
      Leads(s, [Issue, Publish(l)],
            s.(records := s.records + [HeldFor(ByClient(c))], clients := s.clients + [Client(Open, Some(l), false, true, Idle)],
               leased := s.leased + {c}))
  {
    var l, c := |s.records|, |s.clients|;
    var issued := s.(records := s.records + [HeldFor(ByPool)], pending := s.pending + {l});
    var t := s.(records := s.records + [HeldFor(ByClient(c))], clients := s.clients + [Client(Open, Some(l), false, true, Idle)],
                leased := s.leased + {c});
    assert issued.pending - {l} == s.pending;
    Chain([s, issued, t], [Issue, Publish(l)]);
  }

  /** A pending lease never bears the number of the next one. */
  lemma {:induction false} PendingIsIssued(s: State)
    requires Reachable(s)
    ensures |s.records| !in s.pending
  {
    ReachableInvariant(s);
    assert |s.records| in s.pending ==> HeldBy(s, |s.records|, ByPool);
  }

  lemma {:induction false} UnwantedIsReleased(s: State, l: nat, fatal: bool)
    requires l < |s.records| && s.records[l] == Leaving(AwaitTail(false), fatal)
    ensures var released := s.records[l].(stage := Releasing, releases := 1);
            && Step(s, TailSettled(l), s.(records := s.records[l := released]))
            && Step(s.(records := s.records[l := released]), PoolReleaseEnded(l), s.(records := s.records[l := HandedIn(false, fatal)]))
  {}

  /** A lease that comes too late, or is given up, is handed in at once and not for reuse; no client gets it. */
  lemma {:induction false} UnpublishedLeaseIsHandedIn(s: State, e: Event)
    requires |s.records| !in s.pending
    requires e == GiveUp(|s.records|) || (s.closed && e == Publish(|s.records|))
    ensures var l := |s.records|;
            Leads(s, [Issue, e, TailSettled(l), PoolReleaseEnded(l)], s.(records := s.records + [HandedIn(false, false)]))
  {
    var l := |s.records|;
    var issued := s.(records := s.records + [HeldFor(ByPool)], pending := s.pending + {l});
    var claimed := s.(records := s.records + [Leaving(AwaitTail(false), false)]);
    var released := Leaving(AwaitTail(false), false).(stage := Releasing, releases := 1);
    assert issued.pending - {l} == s.pending;
    UnwantedIsReleased(claimed, l, false);
    assert claimed.records[l := released] == s.records + [released];
    assert claimed.records[l := HandedIn(false, false)] == s.records + [HandedIn(false, false)];
    Chain([s, issued, claimed, claimed.(records := claimed.records[l := released]), s.(records := s.records + [HandedIn(false, false)])],
          [Issue, e, TailSettled(l), PoolReleaseEnded(l)]);
  }

  // ---------------------------------------------------------------- operations

  function Runs(l: nat): Client {
    Client(Open, Some(l), false, true, Running(l))
  }

  lemma {:induction false} OperationSteps(s: State, c: nat, l: nat)
    requires HasLease(s, c, l)
    ensures Step(s, OpStarts(c), With(s, c, Runs(l), l, HeldFor(ByClient(c))))
    ensures var busy := With(s, c, Runs(l), l, HeldFor(ByClient(c)).(active := true));
            && Step(With(s, c, Runs(l), l, HeldFor(ByClient(c))), OwnerOpStarts(c), busy)
            && Step(busy, OwnerOpEnds(c), With(s, c, Runs(l), l, HeldFor(ByClient(c))))
  {}

  /** An operation that succeeds leaves the client, and its lease, as they were. */
  lemma {:induction false} OperationLeavesLease(s: State, c: nat, l: nat)
    requires HasLease(s, c, l)
    ensures Leads(s, [OpStarts(c), OwnerOpStarts(c), OwnerOpEnds(c), OpDone(c)], s)
  {
    var runs := With(s, c, Runs(l), l, HeldFor(ByClient(c)));
    OperationSteps(s, c, l);
    assert Step(runs, OpDone(c), s);
    Chain([s, runs, With(s, c, Runs(l), l, HeldFor(ByClient(c)).(active := true)), runs, s],
          [OpStarts(c), OwnerOpStarts(c), OwnerOpEnds(c), OpDone(c)]);
  }

  /** A client that is not open starts nothing. */
  lemma {:induction false} ClosedClientStartsNothing(s: State, c: nat)
    requires c < |s.clients| && s.clients[c].op == Idle && s.clients[c].state != Open
    ensures Step(s, OpStarts(c), s)
  {}

  /** An operation enters only on a lease that nobody has claimed for release, in every interleaving. */
  lemma {:induction false} OperationsEnterOwnedLeases(s: State, c: nat)
    requires Reachable(s) && Enabled(s, OwnerOpStarts(c))
    ensures s.records[s.clients[c].op.lease].state == Owned && s.records[s.clients[c].op.lease].releases == 0
  {
    ReachableInvariant(s);
    assert ClientSound(s, c, s.clients[c]) && RecordSound(s.records[s.clients[c].op.lease]);
  }

  /** A lease is handed in only once, when no operation runs on it, and for reuse only if none has failed fatally on it. */
  lemma {:induction false} LeasesAreHandedInIdle(s: State, l: nat, e: Event)
    requires Reachable(s) && Enabled(s, e) && l < |s.records| && (e == TailSettled(l) || (e.ResetEnded? && e.l == l))
    requires Next(s, e).records[l].releases > s.records[l].releases
    ensures !s.records[l].active && s.records[l].releases == 0 && Next(s, e).records[l].releases == 1
    ensures Next(s, e).records[l].handedReusable ==> e == ResetEnded(l, true) && !s.records[l].fatal
  {
    ReachableInvariant(s);
    assert RecordSound(s.records[l]);
  }

  // ---------------------------------------------------------------- fatal failures

  /** The lease failed fatally and was handed in; the client has none, and stands like this. */
  function Bereft(s: State, c: nat, l: nat, state: ClientState, op: Op): State
    requires c < |s.clients| && l < |s.records|
  {
    With(s, c, Client(state, None, false, false, op), l, HandedIn(false, true))
  }

  lemma {:induction false} FatalSteps(s: State, c: nat, l: nat)
    requires HasLease(s, c, l)
    ensures
      var lost := Client(Open, None, false, false, Replacing(l));
      && Step(With(s, c, Runs(l), l, HeldFor(ByClient(c))), OpFatal(c), With(s, c, lost, l, Leaving(AwaitTail(false), true)))
      && Step(With(s, c, lost, l, Leaving(AwaitTail(false), true)), TailSettled(l),
              With(s, c, lost, l, Leaving(Releasing, true).(releases := 1)))
      && Step(With(s, c, lost, l, Leaving(Releasing, true).(releases := 1)), PoolReleaseEnded(l), Bereft(s, c, l, Open, Replacing(l)))
  {}

  /** A fatal failure takes the lease from its client and hands it in, not for reuse, before anything replaces it. */
  lemma {:induction false} FatalHandsIn(s: State, c: nat, l: nat)
    requires HasLease(s, c, l)
    ensures Leads(s, [OpStarts(c), OpFatal(c), TailSettled(l), PoolReleaseEnded(l)], Bereft(s, c, l, Open, Replacing(l)))
  {
    var lost := Client(Open, None, false, false, Replacing(l));
    OperationSteps(s, c, l);
    FatalSteps(s, c, l);
    Chain([s, With(s, c, Runs(l), l, HeldFor(ByClient(c))), With(s, c, lost, l, Leaving(AwaitTail(false), true)),
           With(s, c, lost, l, Leaving(Releasing, true).(releases := 1)), Bereft(s, c, l, Open, Replacing(l))],
          [OpStarts(c), OpFatal(c), TailSettled(l), PoolReleaseEnded(l)]);
  }

  /** Then the client gets another lease, and is as good as new. */
  lemma {:induction false} FatalIsReplaced(s: State, c: nat, l: nat)
    requires HasLease(s, c, l)
    ensures
      var n := |s.records|;
      var t := s.(clients := s.clients[c := Client(Open, Some(n), false, true, Idle)],
                  records := s.records[l := HandedIn(false, true)] + [HeldFor(ByClient(c))]);
      && Leads(Bereft(s, c, l, Open, Replacing(l)), [ReplacementReleased(c, true), ReplacementAcquired(c, true), ReplacementChecked(c, true)], t)
      && HasLease(t, c, n)
  {
    var n := |s.records|;
    var gone := s.records[l := HandedIn(false, true)];
    var lost := Client(Open, None, false, false, Checking(n));
    Chain([Bereft(s, c, l, Open, Replacing(l)), Bereft(s, c, l, Open, Acquiring),
           s.(clients := s.clients[c := lost], records := gone + [HeldFor(ByReplacement(c))]),
           s.(clients := s.clients[c := Client(Open, Some(n), false, true, Idle)], records := gone + [HeldFor(ByClient(c))])],
          [ReplacementReleased(c, true), ReplacementAcquired(c, true), ReplacementChecked(c, true)]);
  }

  /** Unless the release or the acquire fails: then the client is at fault, and without a lease. */
  lemma {:induction false} FailedReplacementFaults(s: State, c: nat, l: nat)
    requires HasLease(s, c, l)
    ensures Leads(Bereft(s, c, l, Open, Replacing(l)), [ReplacementReleased(c, false)], Bereft(s, c, l, Faulted, Idle))
    ensures Leads(Bereft(s, c, l, Open, Replacing(l)), [ReplacementReleased(c, true), ReplacementAcquired(c, false)],
                  Bereft(s, c, l, Faulted, Idle))
  {
    Chain([Bereft(s, c, l, Open, Replacing(l)), Bereft(s, c, l, Faulted, Idle)], [ReplacementReleased(c, false)]);
    Chain([Bereft(s, c, l, Open, Replacing(l)), Bereft(s, c, l, Open, Acquiring), Bereft(s, c, l, Faulted, Idle)],
          [ReplacementReleased(c, true), ReplacementAcquired(c, false)]);
  }

  /** A client without a lease that is checking one it has just got. */
  predicate Checks(s: State, c: nat, l: nat, state: ClientState, claimed: bool) {
    && c < |s.clients| && s.clients[c] == Client(state, None, claimed, false, Checking(l))
    && l < |s.records| && s.records[l] == HeldFor(ByReplacement(c))
  }

  /**
   * A replacement that fails its check, or whose client was closed meanwhile, is handed in and not
   * installed. The client is at fault if the check or the drop failed.
   */
  lemma {:induction false} RefusedReplacementIsHandedIn(s: State, c: nat, l: nat, state: ClientState, claimed: bool, ok: bool, dropped: bool)
    requires Checks(s, c, l, state, claimed) && (!ok || state != Open)
    ensures Leads(s, [ReplacementChecked(c, ok), TailSettled(l), PoolReleaseEnded(l), ReplacementDropped(c, dropped)],
                  With(s, c, Client(if ok && dropped then state else Faulted, None, claimed, false, Idle), l, HandedIn(false, false)))
  {
    var drops := Client(state, None, claimed, false, Dropping(l, !ok));
    var a := With(s, c, drops, l, Leaving(AwaitTail(false), false));
    var b := With(s, c, drops, l, Leaving(Releasing, false).(releases := 1));
    Chain([s, a, b, With(s, c, drops, l, HandedIn(false, false)),
           With(s, c, Client(if ok && dropped then state else Faulted, None, claimed, false, Idle), l, HandedIn(false, false))],
          [ReplacementChecked(c, ok), TailSettled(l), PoolReleaseEnded(l), ReplacementDropped(c, dropped)]);
  }

  // ---------------------------------------------------------------- releases

  /** A client whose lease, if it had one, has been taken over for release. */
  function TakenOver(client: Client): Client {
    client.(state := Closed, lease := None, claimed := true)
  }

  /** The batch is claimed: each client has given its lease to a claim of its own, in the order of the batch. */
  ghost predicate IsClaimed(s: State, batch: seq<nat>, closing: bool, t: State) {
    && t.closed == s.closed && t.pending == s.pending
    && (forall c :: c in t.leased <==> c in s.leased && c !in batch)
    && |t.clients| == |s.clients|
    && (forall c :: 0 <= c < |s.clients| ==> t.clients[c] == if c in batch then TakenOver(s.clients[c]) else s.clients[c])
    && |t.claims| == |s.claims| + |batch| && t.claims[..|s.claims|] == s.claims
    && (forall i :: 0 <= i < |batch| ==> batch[i] < |s.clients| &&
                                         t.claims[|s.claims| + i] == Claim(batch[i], s.clients[batch[i]].lease, closing, false))
    && |t.records| == |s.records|
    && (forall l {:trigger t.records[l]} :: 0 <= l < |s.records| ==> HoldsAfterClaim(s, batch, l, t.records[l]))
  }

  /** A lease of a claimed client belongs to its claim; every other lease is as it was. */
  ghost predicate HoldsAfterClaim(s: State, batch: seq<nat>, l: nat, r: Record)
    requires l < |s.records|
  {
    || (exists i :: 0 <= i < |batch| && OwnedBy(s, batch[i], l) && r == s.records[l].(holder := ByClaim(|s.claims| + i)))
    || ((forall i :: 0 <= i < |batch| ==> !OwnedBy(s, batch[i], l)) && r == s.records[l])
  }

  predicate OwnedBy(s: State, c: nat, l: nat) {
    c < |s.clients| && s.clients[c].lease == Some(l)
  }

  lemma {:induction false} BatchIsClaimed(s: State, batch: seq<nat>, closing: bool)
    requires Distinct(batch) && forall c :: c in batch ==> c < |s.clients|
    ensures IsClaimed(s, batch, closing, ClaimAll(s, batch, closing))
  {
    if batch != [] {
      var n := |batch| - 1;
      assert forall c :: c in batch[..n] ==> c in batch;
      BatchIsClaimed(s, batch[..n], closing);
      assert batch[n] in batch;
      OneMoreClaimed(s, batch[..n], batch[n], closing, ClaimAll(s, batch[..n], closing));
      assert batch == batch[..n] + [batch[n]];
    }
  }

  lemma {:induction false} OneMoreClaimed(s: State, batch: seq<nat>, c: nat, closing: bool, t: State)
    requires IsClaimed(s, batch, closing, t) && c !in batch && c < |s.clients|
    ensures IsClaimed(s, batch + [c], closing, ClaimClient(t, c, closing))
  {
    var more, u := batch + [c], ClaimClient(t, c, closing);
    assert forall d :: d in more <==> d in batch || d == c;
    assert t.clients[c] == s.clients[c];
    assert u.claims == t.claims + [Claim(c, s.clients[c].lease, closing, false)];
    assert u.claims[..|s.claims|] == t.claims[..|s.claims|];
    forall l | 0 <= l < |s.records| ensures HoldsAfterClaim(s, more, l, u.records[l]) {
      HoldsAfterOneMore(s, batch, c, l, t, closing);
    }
  }

  lemma {:induction false} HoldsAfterOneMore(s: State, batch: seq<nat>, c: nat, l: nat, t: State, closing: bool)
    requires c < |s.clients| && |t.clients| == |s.clients| && t.clients[c] == s.clients[c] && |t.claims| == |s.claims| + |batch|
    requires l < |s.records| == |t.records| && HoldsAfterClaim(s, batch, l, t.records[l])
    ensures HoldsAfterClaim(s, batch + [c], l, ClaimClient(t, c, closing).records[l])
  {
    var more := batch + [c];
    assert more[|batch|] == c && forall i :: 0 <= i < |batch| ==> more[i] == batch[i];
    if !OwnedBy(s, c, l) &&
       exists i :: 0 <= i < |batch| && OwnedBy(s, batch[i], l) && t.records[l] == s.records[l].(holder := ByClaim(|s.claims| + i)) {
      var i :| 0 <= i < |batch| && OwnedBy(s, batch[i], l) && t.records[l] == s.records[l].(holder := ByClaim(|s.claims| + i));
      assert OwnedBy(s, more[i], l);
    }
  }

  /** A release takes over the whole batch, or does nothing: when a client repeats or is not the pool's to release. */
  lemma {:induction false} ReleaseClaimsBatch(s: State, batch: seq<nat>)
    requires forall c :: c in s.leased ==> c < |s.clients|
    ensures var t := Next(s, Release(batch));
            if Distinct(batch) && forall c :: c in batch ==> c in s.leased then IsClaimed(s, batch, false, t) else t == s
  {
    if ValidBatch(s, batch) {
      BatchIsClaimed(s, batch, false);
    }
  }

  /** Closing takes over every leased client, once. */
  lemma {:induction false} CloseClaimsAll(s: State, order: seq<nat>)
    requires Enabled(s, CloseAll(order)) && forall c :: c in s.leased ==> c < |s.clients|
    ensures var t := Next(s, CloseAll(order));
            if s.closed then t == s else t.closed && t.leased == {} && IsClaimed(s, order, true, t.(closed := s.closed))
  {
    if !s.closed {
      BatchIsClaimed(s, order, true);
    }
  }

  /** A claim that still has its client's lease; fatal tells whether an operation failed on it. */
  predicate HasClaim(s: State, k: nat, c: nat, l: nat, closing: bool, reusable: bool, fatal: bool) {
    && k < |s.claims| && s.claims[k] == Claim(c, Some(l), closing, false)
    && c < |s.clients| && s.clients[c] == Client(Closed, None, true, reusable, Idle)
    && l < |s.records| && s.records[l] == HeldFor(ByClaim(k)).(fatal := fatal)
  }

  function Recycled(s: State, k: nat, l: nat, r: Record): State
    requires k < |s.claims| && l < |s.records|
  {
    s.(claims := s.claims[k := s.claims[k].(done := true)], records := s.records[l := r])
  }

  /** A released lease with room in the pool is reset, and handed in for reuse exactly when the reset succeeded. */
  lemma {:induction false} ReusableIsReset(s: State, k: nat, c: nat, l: nat, ok: bool)
    requires HasClaim(s, k, c, l, false, true, false) && !s.closed
    ensures Leads(s, [Recycle(k, true), TailSettled(l), ResetEnded(l, ok), PoolReleaseEnded(l)], Recycled(s, k, l, HandedIn(ok, false)))
  {
    Chain([s, Recycled(s, k, l, Leaving(AwaitTail(true), false)), Recycled(s, k, l, Leaving(Resetting, false)),
           Recycled(s, k, l, Record(ReleaseClaimed, Releasing, false, ByNobody, false, 1, ok, false)),
           Recycled(s, k, l, HandedIn(ok, false))],
          [Recycle(k, true), TailSettled(l), ResetEnded(l, ok), PoolReleaseEnded(l)]);
  }

  /** If the pool is closing or closed, has no room, or its client is not reusable, the lease is evicted without a reset. */
  lemma {:induction false} OthersAreEvicted(s: State, k: nat, c: nat, l: nat, closing: bool, reusable: bool, fatal: bool, room: bool)
    requires HasClaim(s, k, c, l, closing, reusable, fatal) && (closing || s.closed || !reusable || !room)
    ensures Leads(s, [Recycle(k, room), TailSettled(l), PoolReleaseEnded(l)], Recycled(s, k, l, HandedIn(false, fatal)))
  {
    Chain([s, Recycled(s, k, l, Leaving(AwaitTail(false), fatal)),
           Recycled(s, k, l, Leaving(Releasing, fatal).(releases := 1)), Recycled(s, k, l, HandedIn(false, fatal))],
          [Recycle(k, room), TailSettled(l), PoolReleaseEnded(l)]);
  }

  /** A claim that took no lease has nothing to hand in. */
  lemma {:induction false} EmptyClaimHandsInNothing(s: State, k: nat, room: bool)
    requires k < |s.claims| && s.claims[k].lease == None && !s.claims[k].done && s.claims[k].client < |s.clients|
    ensures Step(s, Recycle(k, room), s.(claims := s.claims[k := s.claims[k].(done := true)]))
  {}

  /** An operation that was running when its client's lease was claimed, and fails fatally, keeps that lease from being reused. */
  lemma {:induction false} FailureAfterClaimPoisons(s: State, k: nat, c: nat, l: nat, closing: bool, reusable: bool)
    requires c < |s.clients| && s.clients[c].op == Running(l)
    requires HasClaim(s.(clients := s.clients[c := s.clients[c].(op := Idle)]), k, c, l, closing, reusable, false)
    ensures var t := s.(clients := s.clients[c := Client(Closed, None, true, false, Idle)],
                        records := s.records[l := HeldFor(ByClaim(k)).(fatal := true)]);
            Step(s, OpFatal(c), t) && HasClaim(t, k, c, l, closing, false, true)
    ensures forall room :: !Enabled(s, Recycle(k, room))
  {}
}
