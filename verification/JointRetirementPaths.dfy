/**
 * What the calls between the two kinds come to: how a runtime retires its generation and waits for
 * it, and where the hooks of either kind run.
 */
module JointRetirementPaths {
  import opened RetirementGraph
  import opened Retirement
  import opened JointRetirement
  import opened RetirementPaths
  import opened Wrappers

  /** The events are possible one after another and lead to the state. */
  ghost predicate JointLeads(s: Joint, events: seq<JointEvent>, t: Joint)
    decreases |events|
  {
    if events == [] then s == t else JointEnabled(s, events[0]) && JointLeads(JointNext(s, events[0]), events[1..], t)
  }

  lemma {:induction false} JointLeadsIsRun(s: Joint, events: seq<JointEvent>, t: Joint)
    ensures JointLeads(s, events, t) <==> JointRun(s, events) && JointAfter(s, events) == t
    decreases |events|
  {
    if events != [] && JointEnabled(s, events[0]) {
      JointLeadsIsRun(JointNext(s, events[0]), events[1..], t);
    }
  }

  ghost predicate JointStep(s: Joint, e: JointEvent, t: Joint) {
    JointEnabled(s, e) && JointNext(s, e) == t
  }

  lemma {:induction false} JointChain(states: seq<Joint>, events: seq<JointEvent>)
    requires |states| == |events| + 1
    requires forall n {:trigger events[n]} :: 0 <= n < |events| ==> JointStep(states[n], events[n], states[n + 1])
    ensures JointLeads(states[0], events, states[|events|])
    decreases |events|
  {
    if events != [] {
      assert JointStep(states[0], events[0], states[1]);
      forall n | 0 <= n < |events[1..]| ensures JointStep(states[1..][n], events[1..][n], states[1..][n + 1]) {
        assert JointStep(states[n + 1], events[n + 1], states[n + 2]);
      }
      JointChain(states[1..], events[1..]);
    }
  }

  /** A runtime and its generation, both idle. */
  predicate IsPair(s: Joint, n: nat, g: nat) {
    && IsIdle(s.runtimes, n) && n < |s.owned| && s.owned[n] == g && IsIdle(s.configurations, g)
    && (Runtime(n), Configuration(g)) !in s.waits
  }

  /** The place the hooks of a runtime run in when it is retired from outside. */
  function OfRuntime(n: nat): Place {
    Place(Hook(n, {n}), Outside, Some(Runtime(n)))
  }

  /** The place the hooks of its generation run in: within the runtime's. */
  function OfItsGeneration(n: nat, g: nat): Place {
    Place(Hook(n, {n}), Hook(g, {g}), Some(Configuration(g)))
  }

  /** The runtime retires and its generation has been retired by it, which it waits for. */
  function BothRetire(s: Joint, n: nat, g: nat, runtime: Phase, hooks: nat, generation: Phase, others: nat): Joint
    requires n < |s.runtimes.generations| && g < |s.configurations.generations|
  {
    s.(runtimes := Retires(s.runtimes, n, runtime, hooks), configurations := Retires(s.configurations, g, generation, others),
       places := s.places + {OfRuntime(n)} + {OfItsGeneration(n, g)}, waits := s.waits + {(Runtime(n), Configuration(g))})
  }

  lemma {:induction false} RuntimeStarts(s: Joint, n: nat, g: nat)
    requires IsPair(s, n, g)
    ensures
      var t := s.(runtimes := Retires(s.runtimes, n, Retiring, 2), places := s.places + {OfRuntime(n)});
      && JointStep(s, RetireRuntime(n, ELSEWHERE), t)
      && JointStep(t, RetireConfiguration(g, OfRuntime(n)), BothRetire(s, n, g, Retiring, 2, Retiring, 2))
  {
    assert {} + {n} == {n} && {} + {g} == {g};
  }

  lemma {:induction false} GenerationFinishes(s: Joint, n: nat, g: nat)
    requires IsPair(s, n, g)
    ensures JointStep(BothRetire(s, n, g, Retiring, 2, Retiring, 2), GenerationStep(HookDone(g)), BothRetire(s, n, g, Retiring, 2, Retiring, 1))
    ensures JointStep(BothRetire(s, n, g, Retiring, 2, Retiring, 1), GenerationStep(HookDone(g)), BothRetire(s, n, g, Retiring, 2, Retiring, 0))
    ensures JointStep(BothRetire(s, n, g, Retiring, 2, Retiring, 0), GenerationStep(Finish(g)), BothRetire(s, n, g, Retiring, 2, Retired, 0))
    ensures JointStep(BothRetire(s, n, g, Retiring, 0, Retired, 0), GenerationStep(Settle(g)), BothRetire(s, n, g, Retiring, 0, Settled, 0))
  {}

  lemma {:induction false} RuntimeFinishes(s: Joint, n: nat, g: nat)
    requires IsPair(s, n, g)
    ensures JointStep(BothRetire(s, n, g, Retiring, 2, Retired, 0), RuntimeStep(HookDone(n)), BothRetire(s, n, g, Retiring, 1, Retired, 0))
    ensures JointStep(BothRetire(s, n, g, Retiring, 1, Retired, 0), RuntimeStep(HookDone(n)), BothRetire(s, n, g, Retiring, 0, Retired, 0))
    ensures JointStep(BothRetire(s, n, g, Retiring, 0, Settled, 0), RuntimeStep(Finish(n)), BothRetire(s, n, g, Retired, 0, Settled, 0))
    ensures JointStep(BothRetire(s, n, g, Retired, 0, Settled, 0), RuntimeStep(Settle(n)), BothRetire(s, n, g, Settled, 0, Settled, 0))
  {}

  /**
   * A runtime that is retired runs its hook and retires its generation, in its own context. Its
   * retirement is over only when the generation's is.
   */
  lemma {:induction false} RuntimeRetiresItsGeneration(s: Joint, n: nat, g: nat)
    requires IsPair(s, n, g)
    ensures JointLeads(s, [RetireRuntime(n, ELSEWHERE), RetireConfiguration(g, OfRuntime(n)), GenerationStep(HookDone(g)), GenerationStep(HookDone(g)),
                           GenerationStep(Finish(g)), RuntimeStep(HookDone(n)), RuntimeStep(HookDone(n)), GenerationStep(Settle(g)),
                           RuntimeStep(Finish(n)), RuntimeStep(Settle(n))], BothRetire(s, n, g, Settled, 0, Settled, 0))
    ensures !JointEnabled(BothRetire(s, n, g, Retiring, 0, Retired, 0), RuntimeStep(Finish(n)))
  {
    RuntimeStarts(s, n, g);
    GenerationFinishes(s, n, g);
    RuntimeFinishes(s, n, g);
    JointChain([s, s.(runtimes := Retires(s.runtimes, n, Retiring, 2), places := s.places + {OfRuntime(n)}),
                BothRetire(s, n, g, Retiring, 2, Retiring, 2), BothRetire(s, n, g, Retiring, 2, Retiring, 1),
                BothRetire(s, n, g, Retiring, 2, Retiring, 0), BothRetire(s, n, g, Retiring, 2, Retired, 0),
                BothRetire(s, n, g, Retiring, 1, Retired, 0), BothRetire(s, n, g, Retiring, 0, Retired, 0),
                BothRetire(s, n, g, Retiring, 0, Settled, 0), BothRetire(s, n, g, Retired, 0, Settled, 0),
                BothRetire(s, n, g, Settled, 0, Settled, 0)],
               [RetireRuntime(n, ELSEWHERE), RetireConfiguration(g, OfRuntime(n)), GenerationStep(HookDone(g)), GenerationStep(HookDone(g)),
                GenerationStep(Finish(g)), RuntimeStep(HookDone(n)), RuntimeStep(HookDone(n)), GenerationStep(Settle(g)),
                RuntimeStep(Finish(n)), RuntimeStep(Settle(n))]);
  }

  /** A runtime whose generation is still active does not finish. */
  lemma {:induction false} RuntimeNeedsItsGeneration(s: Joint, n: nat)
    requires JointEnabled(s, RuntimeStep(Finish(n)))
    ensures n < |s.owned| && s.owned[n] < |s.configurations.generations| && s.configurations.generations[s.owned[n]].phase != Active
    ensures (Runtime(n), Configuration(s.owned[n])) in s.waits ==> At(s.configurations, s.owned[n], Settled)
  {}

  /** What one call to retire adds: the place its hooks run in if it starts the retirement, and the caller's wait if it is handed the promise. */
  ghost predicate Adds(s: Joint, t: Joint, place: Place, target: Party, starts: bool, hooks: Place, answer: Answer) {
    && t.owned == s.owned
    && (forall p :: p in t.places <==> p in s.places || (starts && p == hooks))
    && (forall w :: w in t.waits <==> w in s.waits || (place.caller == Some(w.0) && w.1 == target && answer == OwnRetirement))
  }

  predicate StartsAt(s: State, target: nat, within: Context) {
    At(s, target, Active) && (within.Hook? ==> target !in within.owners)
  }

  function Below(n: nat, within: Context): Context {
    match within
    case Outside => Hook(n, {n})
    case Hook(_, owners) => Hook(n, owners + {n})
  }

  lemma {:induction false} RetireRuntimeAdds(s: Joint, target: nat, place: Place)
    requires JointEnabled(s, RetireRuntime(target, place))
    ensures
      var t := JointNext(s, RetireRuntime(target, place));
      && t.configurations == s.configurations && t.runtimes == Next(s.runtimes, Event.Retire(target, place.runtime))
      && Adds(s, t, place, Runtime(target), StartsAt(s.runtimes, target, place.runtime),
              Place(Below(target, place.runtime), place.generation, Some(Runtime(target))),
              RetireAnswer(s.runtimes, target, place.runtime))
  {
    assert {} + {target} == {target};
  }

  lemma {:induction false} RetireConfigurationAdds(s: Joint, target: nat, place: Place)
    requires JointEnabled(s, RetireConfiguration(target, place))
    ensures
      var t := JointNext(s, RetireConfiguration(target, place));
      && t.runtimes == s.runtimes && t.configurations == Next(s.configurations, Event.Retire(target, place.generation))
      && Adds(s, t, place, Configuration(target), StartsAt(s.configurations, target, place.generation),
              Place(place.runtime, Below(target, place.generation), Some(Configuration(target))),
              RetireAnswer(s.configurations, target, place.generation))
  {
    assert {} + {target} == {target};
  }

  /** A late connection is disposed in a place of its generation's own; one that comes in time opens none. */
  lemma {:induction false} LateConnectionHasPlace(s: Joint, n: nat, place: Place)
    requires JointEnabled(s, GenerationOpened(n, place))
    ensures
      var t := JointNext(s, GenerationOpened(n, place));
      && t == s.(configurations := Next(s.configurations, Opened(n, place.generation)), places := t.places)
      && forall p :: p in t.places <==>
           p in s.places ||
           (s.configurations.generations[n].phase != Active && p == Place(place.runtime, Below(n, place.generation), Some(Configuration(n))))
  {
    assert {} + {n} == {n};
  }

  /** A new runtime belongs to the generation it was created for. */
  lemma {:induction false} NewRuntimeHasGeneration(s: Joint, g: nat)
    requires g < |s.configurations.generations| && |s.owned| == |s.runtimes.generations|
    ensures
      var t := JointNext(s, CreateRuntime(g));
      var n := |s.runtimes.generations|;
      && t.configurations == s.configurations && t.places == s.places && t.waits == s.waits
      && |t.owned| == |s.owned| + 1 && t.owned[n] == g && IsIdle(t.runtimes, n) && (forall m :: 0 <= m < |s.owned| ==> t.owned[m] == s.owned[m])
  {}
}
