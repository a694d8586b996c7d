/**
 * The retirement lifecycle of destination generations and runtimes as a step system, and
 * the class that owns the shared wait-for map. Every asynchronous continuation (a hook
 * returning, an open finishing, a promise settling, a removal callback) is one step, and the
 * steps may come in any order that their guards allow.
 */
module Retirement {
  import opened RetirementGraph

  datatype Phase = Active | Retiring | Retired | Settled

  /**
   * One generation: its retirement phase (Retired: the body is done but the promise is still
   * to settle), the retire hooks still running (a lane without one counts as returning at
   * once), opens waiting for the factory, late opens being disposed, and the counters of the
   * lane monitor.
   */
  datatype Generation = Generation(
    phase: Phase, hooks: nat, opening: nat, disposing: nat, attempts: nat, succeeded: nat, failed: nat)

  /** The asynchronous context a caller runs in: the retirement it belongs to and its ancestors. */
  datatype Context = Outside | Hook(owner: nat, owners: set<nat>)

  /** What retire() hands to its caller: the target's own promise, or one that is already done. */
  datatype Answer = OwnRetirement | Acknowledged

  /**
   * answersRetired tells the two copies apart: a generation answers a finished retirement
   * before it looks at the context, a runtime does not. waits records, for each caller inside
   * a hook, the promise it was handed.
   */
  datatype State = State(
    answersRetired: bool,
    generations: seq<Generation>,
    dependencies: Dependencies,
    contexts: set<Context>,
    waits: set<(nat, nat)>)

  datatype Event =
    | Create
    | Open(n: nat)
    | OpenFailed(n: nat)
    | Opened(n: nat, within: Context)
    | LateOpenDisposed(n: nat)
    | Retire(target: nat, within: Context)
    | HookDone(n: nat)
    | Finish(n: nat)
    | Settle(n: nat)
    | Remove(owner: nat, target: nat)

  function Initial(answersRetired: bool): State {
    State(answersRetired, [], map[], {}, {})
  }

  function Owners(c: Context): set<nat> {
    if c.Outside? then {} else c.owners
  }

  predicate At(s: State, n: nat, phase: Phase) {
    n < |s.generations| && s.generations[n].phase == phase
  }

  predicate Usable(s: State, c: Context) {
    c.Outside? || c in s.contexts
  }

  /** Which continuations may run next. */
  predicate Enabled(s: State, e: Event) {
    match e
    case Create => true
    case Open(n) => n < |s.generations|
    case OpenFailed(n) => n < |s.generations| && s.generations[n].opening > 0
    case Opened(n, within) => n < |s.generations| && s.generations[n].opening > 0 && Usable(s, within)
    case LateOpenDisposed(n) => n < |s.generations| && s.generations[n].disposing > 0
    case Retire(target, within) => target < |s.generations| && Usable(s, within)
    case HookDone(n) => At(s, n, Retiring) && s.generations[n].hooks > 0
    case Finish(n) =>
      && At(s, n, Retiring)
      && s.generations[n].hooks == 0 && s.generations[n].opening == 0 && s.generations[n].disposing == 0
    case Settle(n) => At(s, n, Retired)
    case Remove(owner, target) => (owner, target) in s.waits && (At(s, owner, Settled) || At(s, target, Settled))
  }

  function WithGeneration(s: State, n: nat, g: Generation): State
    requires n < |s.generations|
  {
    s.(generations := s.generations[n := g])
  }

  /** The answer of retire(), with reachability in place of the search. */
  ghost function RetireAnswer(s: State, target: nat, within: Context): Answer
    requires target < |s.generations|
  {
    if s.answersRetired && s.generations[target].phase in {Retired, Settled} then OwnRetirement
    else if target in Owners(within) then Acknowledged
    else if within.Hook? && Reaches(s.dependencies, target, within.owner) then Acknowledged
    else OwnRetirement
  }

  /** Starting a retirement publishes the context its hooks will run in. */
  function Started(s: State, target: nat, within: Context): State
    requires target < |s.generations|
  {
    var g := s.generations[target];
    if g.phase == Active && target !in Owners(within) then
      WithGeneration(s, target, g.(phase := Retiring, hooks := 2))
        .(contexts := s.contexts + {Hook(target, Owners(within) + {target})})
    else s
  }

  /** A caller inside a hook that gets the target's own promise now waits for it. */
  ghost function Joined(s: State, target: nat, within: Context, answer: Answer, recorded: bool): State {
    if within.Outside? || answer == Acknowledged then s
    else
      s.(waits := s.waits + {(within.owner, target)},
         dependencies := if recorded then WithEdge(s.dependencies, within.owner, target) else s.dependencies)
  }

  ghost function AfterRetire(s: State, target: nat, within: Context): State
    requires target < |s.generations|
  {
    var shortcut := s.answersRetired && s.generations[target].phase in {Retired, Settled};
    Joined(Started(s, target, within), target, within, RetireAnswer(s, target, within), !shortcut)
  }

  ghost function Next(s: State, e: Event): State
    requires Enabled(s, e)
  {
    match e
    case Create => s.(generations := s.generations + [Generation(Active, 0, 0, 0, 0, 0, 0)])
    case Open(n) => Admitted(s, n)
    case OpenFailed(n) =>
      var g := s.generations[n];
      WithGeneration(s, n, g.(opening := g.opening - 1, failed := g.failed + 1))
    case Opened(n, within) => AfterOpened(s, n, within)
    case LateOpenDisposed(n) =>
      var g := s.generations[n];
      WithGeneration(s, n, g.(disposing := g.disposing - 1, failed := g.failed + 1))
    case Retire(target, within) => AfterRetire(s, target, within)
    case HookDone(n) => WithGeneration(s, n, s.generations[n].(hooks := s.generations[n].hooks - 1))
    case Finish(n) => WithGeneration(s, n, s.generations[n].(phase := Retired))
    case Settle(n) => WithGeneration(s, n, s.generations[n].(phase := Settled))
    case Remove(owner, target) => s.(dependencies := WithoutEdge(s.dependencies, owner, target))
  }

  /** Only an active generation admits an open. */
  function Admitted(s: State, n: nat): State
    requires n < |s.generations|
  {
    var g := s.generations[n];
    if g.phase == Active then WithGeneration(s, n, g.(opening := g.opening + 1, attempts := g.attempts + 1)) else s
  }

  /** A connection that arrives after the retirement began is disposed, inside a context of its own. */
  function AfterOpened(s: State, n: nat, within: Context): State
    requires n < |s.generations| && s.generations[n].opening > 0
  {
    var g := s.generations[n];
    if g.phase == Active then
      WithGeneration(s, n, g.(opening := g.opening - 1, succeeded := g.succeeded + 1))
    else
      WithGeneration(s, n, g.(opening := g.opening - 1, disposing := g.disposing + 1))
        .(contexts := s.contexts + {Hook(n, Owners(within) + {n})})
  }

  // ---------------------------------------------------------------- the invariant

  ghost predicate Begun(s: State, n: nat) {
    n < |s.generations| && s.generations[n].phase != Active
  }

  /** The monitor balances, late disposal only follows retirement, and a finished body has drained everything. */
  predicate GenerationInvariant(g: Generation) {
    && g.attempts == g.succeeded + g.failed + g.opening + g.disposing
    && (g.phase == Active ==> g.disposing == 0 && g.hooks == 0)
    && (g.phase in {Retired, Settled} ==> g.hooks == 0 && g.opening == 0 && g.disposing == 0)
  }

  ghost predicate ContextInvariant(s: State, c: Context) {
    c.Hook? && c.owner in c.owners && forall o :: o in c.owners ==> Begun(s, o)
  }

  /** A promise handed out is settled, or about to settle, or recorded in the map. */
  ghost predicate WaitInvariant(s: State, owner: nat, target: nat) {
    && Begun(s, owner) && Begun(s, target)
    && (|| target in Waited(s.dependencies, owner)
        || At(s, owner, Settled) || At(s, target, Settled) || At(s, target, Retired))
  }

  ghost predicate Invariant(s: State) {
    && Acyclic(s.dependencies)
    && (forall g :: g in s.generations ==> GenerationInvariant(g))
    && (forall c :: c in s.contexts ==> ContextInvariant(s, c))
    && (forall o: nat, t: nat :: (o, t) in s.waits ==> WaitInvariant(s, o, t))
    && (forall o: nat, t: nat :: t in Waited(s.dependencies, o) ==> (o, t) in s.waits)
  }

  /** Changing one generation without moving its phase back keeps the other parts. */
  lemma {:induction false} PhaseAdvanceKeepsInvariant(s: State, n: nat, g: Generation)
    requires Invariant(s) && n < |s.generations| && GenerationInvariant(g)
    requires
      var was := s.generations[n].phase;
      g.phase == was || was == Active || (was == Retiring && g.phase == Retired) || (was == Retired && g.phase == Settled)
    ensures Invariant(WithGeneration(s, n, g))
  {
    var after := WithGeneration(s, n, g);
    forall m | Begun(s, m) ensures Begun(after, m) {}
    forall c | c in after.contexts ensures ContextInvariant(after, c) {
      assert ContextInvariant(s, c);
    }
    forall o: nat, t: nat | (o, t) in after.waits ensures WaitInvariant(after, o, t) {
      assert WaitInvariant(s, o, t);
    }
  }

  lemma {:induction false} ContextKeepsInvariant(s: State, c: Context)
    requires Invariant(s) && ContextInvariant(s, c)
    ensures Invariant(s.(contexts := s.contexts + {c}))
  {
    var after := s.(contexts := s.contexts + {c});
    forall x | x in after.contexts ensures ContextInvariant(after, x) {
      assert ContextInvariant(s, x);
    }
    forall o: nat, t: nat | (o, t) in after.waits ensures WaitInvariant(after, o, t) {
      assert WaitInvariant(s, o, t);
    }
  }

  lemma {:induction false} StartKeepsInvariant(s: State, target: nat, within: Context)
    requires Invariant(s) && target < |s.generations| && Usable(s, within)
    ensures Invariant(Started(s, target, within))
  {
    var g := s.generations[target];
    if g.phase == Active && target !in Owners(within) {
      var begun := g.(phase := Retiring, hooks := 2);
      assert g in s.generations;
      PhaseAdvanceKeepsInvariant(s, target, begun);
      var c := Hook(target, Owners(within) + {target});
      if within.Hook? {
        assert ContextInvariant(s, within);
      }
      ContextKeepsInvariant(WithGeneration(s, target, begun), c);
    }
  }

  /** Handing out the target's promise inside a hook, recorded unless the target is already retired. */
  lemma {:induction false} JoinKeepsInvariant(s: State, target: nat, within: Context, answer: Answer, recorded: bool)
    requires Invariant(s) && Begun(s, target) && (within.Outside? || Begun(s, within.owner))
    requires answer == OwnRetirement && within.Hook? && recorded ==> !Reaches(s.dependencies, target, within.owner)
    requires !recorded ==> At(s, target, Retired) || At(s, target, Settled)
    ensures Invariant(Joined(s, target, within, answer, recorded))
  {
    if within.Hook? && answer == OwnRetirement {
      var after := Joined(s, target, within, answer, recorded);
      if recorded {
        AllowedEdgeKeepsAcyclic(s.dependencies, within.owner, target);
      }
      forall c | c in after.contexts ensures ContextInvariant(after, c) {
        assert ContextInvariant(s, c);
      }
      forall o: nat, t: nat | (o, t) in after.waits ensures WaitInvariant(after, o, t) {
        if (o, t) in s.waits {
          assert WaitInvariant(s, o, t);
        }
      }
    }
  }

  lemma {:induction false} RetireKeepsInvariant(s: State, target: nat, within: Context)
    requires Invariant(s) && target < |s.generations| && Usable(s, within)
    ensures Invariant(AfterRetire(s, target, within))
  {
    StartKeepsInvariant(s, target, within);
    var begun := Started(s, target, within);
    var shortcut := s.answersRetired && s.generations[target].phase in {Retired, Settled};
    if within.Hook? {
      assert ContextInvariant(s, within);
    }
    if RetireAnswer(s, target, within) == OwnRetirement {
      JoinKeepsInvariant(begun, target, within, OwnRetirement, !shortcut);
    }
  }

  lemma {:induction false} RemoveKeepsInvariant(s: State, owner: nat, target: nat)
    requires Invariant(s) && Enabled(s, Remove(owner, target))
    ensures Invariant(Next(s, Remove(owner, target)))
  {
    var after := Next(s, Remove(owner, target));
    RemovalKeepsAcyclic(s.dependencies, owner, target);
    forall c | c in after.contexts ensures ContextInvariant(after, c) {
      assert ContextInvariant(s, c);
    }
    forall o: nat, t: nat | (o, t) in after.waits ensures WaitInvariant(after, o, t) {
      assert WaitInvariant(s, o, t);
    }
  }

  lemma {:induction false} CreateKeepsInvariant(s: State)
    requires Invariant(s)
    ensures Invariant(Next(s, Create))
  {
    var after := Next(s, Create);
    forall c | c in after.contexts ensures ContextInvariant(after, c) {
      assert ContextInvariant(s, c);
      forall o | o in c.owners ensures Begun(after, o) {
        assert Begun(s, o);
      }
    }
    forall o: nat, t: nat | (o, t) in after.waits ensures WaitInvariant(after, o, t) {
      assert WaitInvariant(s, o, t);
    }
  }

  lemma {:induction false} OpenedKeepsInvariant(s: State, n: nat, within: Context)
    requires Invariant(s) && Enabled(s, Opened(n, within))
    ensures Invariant(AfterOpened(s, n, within))
  {
    var g := s.generations[n];
    assert g in s.generations;
    if g.phase == Active {
      PhaseAdvanceKeepsInvariant(s, n, g.(opening := g.opening - 1, succeeded := g.succeeded + 1));
    } else {
      var late := g.(opening := g.opening - 1, disposing := g.disposing + 1);
      PhaseAdvanceKeepsInvariant(s, n, late);
      if within.Hook? {
        assert ContextInvariant(s, within);
      }
      ContextKeepsInvariant(WithGeneration(s, n, late), Hook(n, Owners(within) + {n}));
    }
  }

  lemma {:induction false} StepKeepsInvariant(s: State, e: Event)
    requires Invariant(s) && Enabled(s, e)
    ensures Invariant(Next(s, e))
  {
    match e
    case Create => CreateKeepsInvariant(s);
    case Retire(target, within) => RetireKeepsInvariant(s, target, within);
    case Remove(owner, target) => RemoveKeepsInvariant(s, owner, target);
    case Opened(n, within) => OpenedKeepsInvariant(s, n, within);
    case _ =>
      var n := e.n;
      assert s.generations[n] in s.generations;
      PhaseAdvanceKeepsInvariant(s, n, Next(s, e).generations[n]);
      assert Next(s, e) == WithGeneration(s, n, Next(s, e).generations[n]);
  }

  // ---------------------------------------------------------------- runs

  /** Every event of the run is enabled when it happens. */
  ghost predicate Run(s: State, events: seq<Event>)
    decreases |events|
  {
    events == [] || (Enabled(s, events[0]) && Run(Next(s, events[0]), events[1..]))
  }

  ghost function After(s: State, events: seq<Event>): State
    requires Run(s, events)
    decreases |events|
  {
    if events == [] then s else After(Next(s, events[0]), events[1..])
  }

  lemma {:induction false} RunKeepsInvariant(s: State, events: seq<Event>)
    requires Invariant(s) && Run(s, events)
    ensures Invariant(After(s, events))
    decreases |events|
  {
    if events != [] {
      StepKeepsInvariant(s, events[0]);
      RunKeepsInvariant(Next(s, events[0]), events[1..]);
    }
  }

  /** The wait-for relation is acyclic in every reachable state. */
  lemma {:induction false} AlwaysAcyclic(answersRetired: bool, events: seq<Event>)
    requires Run(Initial(answersRetired), events)
    ensures Acyclic(After(Initial(answersRetired), events).dependencies)
  {
    RunKeepsInvariant(Initial(answersRetired), events);
  }

  lemma {:induction false} FreeMember(s: State, retiring: set<nat>) returns (x: nat)
    requires Invariant(s) && retiring != {} && forall n :: n in retiring ==> At(s, n, Retiring)
    ensures x in retiring && forall y :: y in retiring ==> (x, y) !in s.waits
  {
    x := MemberWithoutWait(s.dependencies, retiring);
    forall y | y in retiring ensures (x, y) !in s.waits {}
  }

  /**
   * No deadlock: among any retirements that have begun and not settled, one is already
   * finished or was handed no promise of another one of them.
   */
  lemma {:induction false} NoDeadlock(answersRetired: bool, events: seq<Event>, unsettled: set<nat>) returns (x: nat)
    requires Run(Initial(answersRetired), events) && unsettled != {}
    requires
      var s := After(Initial(answersRetired), events);
      forall n :: n in unsettled ==> Begun(s, n) && s.generations[n].phase != Settled
    ensures
      var s := After(Initial(answersRetired), events);
      x in unsettled && (At(s, x, Retired) || forall y :: y in unsettled ==> (x, y) !in s.waits)
  {
    RunKeepsInvariant(Initial(answersRetired), events);
    var s := After(Initial(answersRetired), events);
    if n :| n in unsettled && At(s, n, Retired) {
      x := n;
    } else {
      x := FreeMember(s, unsettled);
    }
  }

  /**
   * A caller is put off with an acknowledgement exactly when its own chain of hooks is being
   * waited for: the target is one of its owners, or recording the wait would close a cycle.
   */
  lemma {:induction false} AcknowledgedExactlyOnCycle(s: State, target: nat, within: Context)
    requires Invariant(s) && target < |s.generations| && Usable(s, within)
    requires s.answersRetired ==> s.generations[target].phase !in {Retired, Settled}
    ensures RetireAnswer(s, target, within) == Acknowledged <==>
            within.Hook? && (target in within.owners || !Acyclic(WithEdge(s.dependencies, within.owner, target)))
  {
    if within.Hook? {
      if Reaches(s.dependencies, target, within.owner) {
        RefusedEdgeClosesCycle(s.dependencies, within.owner, target);
      } else {
        AllowedEdgeKeepsAcyclic(s.dependencies, within.owner, target);
      }
    }
  }

  /** The call that starts a retirement always gets the real promise. */
  lemma {:induction false} FirstRetireIsNotPutOff(s: State, target: nat, within: Context)
    requires Invariant(s) && At(s, target, Active) && Usable(s, within)
    ensures RetireAnswer(s, target, within) == OwnRetirement
  {
    if within.Hook? {
      assert ContextInvariant(s, within);
      if Reaches(s.dependencies, target, within.owner) {
        forall y ensures y !in Waited(s.dependencies, target) {}
        ClosedHoldsReached(s.dependencies, {target}, target, within.owner);
      }
    }
  }

  /** Once retirement begins, nothing is admitted and no connection is handed out any more. */
  lemma {:induction false} NothingHandedOutAfterRetire(s: State, events: seq<Event>, n: nat)
    requires Run(s, events) && Begun(s, n)
    ensures
      var after := After(s, events);
      && Begun(after, n)
      && after.generations[n].attempts == s.generations[n].attempts
      && after.generations[n].succeeded == s.generations[n].succeeded
    decreases |events|
  {
    if events != [] {
      NothingHandedOutAfterRetire(Next(s, events[0]), events[1..], n);
    }
  }

  /** When a retirement has settled, every open it had admitted has finished or been disposed. */
  lemma {:induction false} SettledHasDrained(answersRetired: bool, events: seq<Event>, n: nat)
    requires Run(Initial(answersRetired), events)
    requires At(After(Initial(answersRetired), events), n, Settled)
    ensures
      var g := After(Initial(answersRetired), events).generations[n];
      g.hooks == 0 && g.opening == 0 && g.disposing == 0 && g.attempts == g.succeeded + g.failed
  {
    RunKeepsInvariant(Initial(answersRetired), events);
    assert After(Initial(answersRetired), events).generations[n] in After(Initial(answersRetired), events).generations;
  }

  // ---------------------------------------------------------------- the mutable form

  /** The shared wait-for map together with the generations that use it. */
  class Registry {
    const answersRetired: bool
    var generations: seq<Generation>
    var dependencies: Dependencies
    ghost var contexts: set<Context>
    ghost var waits: set<(nat, nat)>

    ghost function View(): State
      reads this
    {
      State(answersRetired, generations, dependencies, contexts, waits)
    }

    constructor (answersRetired: bool)
      ensures View() == Initial(answersRetired) && Invariant(View())
    {
      this.answersRetired := answersRetired;
      generations, dependencies, contexts, waits := [], map[], {}, {};
    }

    method CreateGeneration() returns (n: nat)
      requires Invariant(View())
      modifies this
      ensures View() == Next(old(View()), Create) && Invariant(View())
      ensures n == |old(generations)|
    {
      StepKeepsInvariant(View(), Create);
      n := |generations|;
      generations := generations + [Generation(Active, 0, 0, 0, 0, 0, 0)];
    }

    method OpenLane(n: nat) returns (admitted: bool)
      requires Invariant(View()) && Enabled(View(), Open(n))
      modifies this
      ensures View() == Next(old(View()), Open(n)) && Invariant(View())
      ensures admitted <==> old(generations[n].phase) == Active
    {
      StepKeepsInvariant(View(), Open(n));
      var g := generations[n];
      admitted := g.phase == Active;
      if admitted {
        generations := generations[n := g.(opening := g.opening + 1, attempts := g.attempts + 1)];
      }
    }

    /** The factory delivered a connection; a late one is disposed instead of handed out. */
    method LaneOpened(n: nat, ghost within: Context) returns (handedOut: bool)
      requires Invariant(View()) && Enabled(View(), Opened(n, within))
      modifies this
      ensures View() == Next(old(View()), Opened(n, within)) && Invariant(View())
      ensures handedOut <==> old(generations[n].phase) == Active
    {
      StepKeepsInvariant(View(), Opened(n, within));
      var g := generations[n];
      handedOut := g.phase == Active;
      if handedOut {
        generations := generations[n := g.(opening := g.opening - 1, succeeded := g.succeeded + 1)];
      } else {
        generations := generations[n := g.(opening := g.opening - 1, disposing := g.disposing + 1)];
        contexts := contexts + {Hook(n, Owners(within) + {n})};
      }
    }

    /** Record a wait of the owner for the target, unless it would close a cycle. */
    method TrackJoin(owner: nat, target: nat) returns (tracked: bool)
      modifies this`dependencies
      ensures tracked <==> !Reaches(old(dependencies), target, owner)
      ensures dependencies == if tracked then WithEdge(old(dependencies), owner, target) else old(dependencies)
    {
      var cycle := JoinWouldCycle(dependencies, owner, target);
      if cycle {
        return false;
      }
      var waited := if owner in dependencies then dependencies[owner] else {};
      dependencies := dependencies[owner := waited + {target}];
      return true;
    }

    method RetireGeneration(target: nat, within: Context) returns (answer: Answer)
      requires Invariant(View()) && Enabled(View(), Retire(target, within))
      modifies this
      ensures View() == Next(old(View()), Retire(target, within)) && Invariant(View())
      ensures answer == RetireAnswer(old(View()), target, within)
    {
      StepKeepsInvariant(View(), Retire(target, within));
      var phase := generations[target].phase;
      if answersRetired && phase in {Retired, Settled} {
        if within.Hook? {
          waits := waits + {(within.owner, target)};
        }
        return OwnRetirement;
      }
      if within.Hook? && target in within.owners {
        return Acknowledged;
      }
      if phase == Active {
        generations := generations[target := generations[target].(phase := Retiring, hooks := 2)];
        contexts := contexts + {Hook(target, Owners(within) + {target})};
      }
      if within.Outside? {
        return OwnRetirement;
      }
      var tracked := TrackJoin(within.owner, target);
      if !tracked {
        return Acknowledged;
      }
      waits := waits + {(within.owner, target)};
      return OwnRetirement;
    }

    /** The callback that runs when the owner's or the target's retirement settles. */
    method RemoveJoin(owner: nat, target: nat)
      requires Invariant(View()) && Enabled(View(), Remove(owner, target))
      modifies this
      ensures View() == Next(old(View()), Remove(owner, target)) && Invariant(View())
    {
      StepKeepsInvariant(View(), Remove(owner, target));
      if owner in dependencies {
        var rest := dependencies[owner] - {target};
        if rest == {} {
          dependencies := dependencies - {owner};
        } else {
          dependencies := dependencies[owner := rest];
        }
      }
    }
  }
}
