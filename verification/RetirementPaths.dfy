/**
 * What a retirement comes to, step after step: the opens it lets finish, the hooks it waits for,
 * and what a call from inside a hook is handed. Said of both copies of the lifecycle.
 */
module RetirementPaths {
  import opened RetirementGraph
  import opened Retirement

  /** The events are possible one after another and lead to the state. */
  ghost predicate Leads(s: State, events: seq<Event>, t: State)
    decreases |events|
  {
    if events == [] then s == t else Enabled(s, events[0]) && Leads(Next(s, events[0]), events[1..], t)
  }

  lemma {:induction false} LeadsIsRun(s: State, events: seq<Event>, t: State)
    ensures Leads(s, events, t) <==> Run(s, events) && After(s, events) == t
    decreases |events|
  {
    if events != [] && Enabled(s, events[0]) {
      LeadsIsRun(Next(s, events[0]), events[1..], t);
    }
  }

  ghost predicate Step(s: State, e: Event, t: State) {
    Enabled(s, e) && Next(s, e) == t
  }

  /** Steps from state to state, one after another. */
  lemma {:induction false} Chain(states: seq<State>, events: seq<Event>)
    requires |states| == |events| + 1
    requires forall n {:trigger events[n]} :: 0 <= n < |events| ==> Step(states[n], events[n], states[n + 1])
    ensures Leads(states[0], events, states[|events|])
    decreases |events|
  {
    if events != [] {
      assert Step(states[0], events[0], states[1]);
      forall n | 0 <= n < |events[1..]| ensures Step(states[1..][n], events[1..][n], states[1..][n + 1]) {
        assert Step(states[n + 1], events[n + 1], states[n + 2]);
      }
      Chain(states[1..], events[1..]);
    }
  }

  function Put(s: State, n: nat, g: Generation): State
    requires n < |s.generations|
  {
    s.(generations := s.generations[n := g])
  }

  // ---------------------------------------------------------------- opens

  /** An open of an active generation is counted as an attempt, and then as a success or a failure. */
  lemma {:induction false} OpenIsCounted(s: State, n: nat, within: Context)
    requires At(s, n, Active) && Usable(s, within)
    ensures
      var g := s.generations[n];
      && Leads(s, [Open(n), Opened(n, within)], Put(s, n, g.(attempts := g.attempts + 1, succeeded := g.succeeded + 1)))
      && Leads(s, [Open(n), OpenFailed(n)], Put(s, n, g.(attempts := g.attempts + 1, failed := g.failed + 1)))
  {
    var g := s.generations[n];
    var opening := Put(s, n, g.(attempts := g.attempts + 1, opening := g.opening + 1));
    Chain([s, opening, Put(s, n, g.(attempts := g.attempts + 1, succeeded := g.succeeded + 1))], [Open(n), Opened(n, within)]);
    Chain([s, opening, Put(s, n, g.(attempts := g.attempts + 1, failed := g.failed + 1))], [Open(n), OpenFailed(n)]);
  }

  /** One that arrives once the generation retires is disposed, in a context of its own, and has failed. */
  lemma {:induction false} LateOpenIsDisposed(s: State, n: nat, within: Context)
    requires n < |s.generations| && s.generations[n].phase != Active && s.generations[n].opening > 0 && Usable(s, within)
    ensures
      var g := s.generations[n];
      Leads(s, [Opened(n, within), LateOpenDisposed(n)],
            Put(s, n, g.(opening := g.opening - 1, failed := g.failed + 1)).(contexts := s.contexts + {Hook(n, Owners(within) + {n})}))
  {
    var g := s.generations[n];
    var contexts := s.contexts + {Hook(n, Owners(within) + {n})};
    Chain([s, Put(s, n, g.(opening := g.opening - 1, disposing := g.disposing + 1)).(contexts := contexts),
           Put(s, n, g.(opening := g.opening - 1, failed := g.failed + 1)).(contexts := contexts)],
          [Opened(n, within), LateOpenDisposed(n)]);
  }

  /** Nothing new is opened by a generation that is not active. */
  lemma {:induction false} RetiringOpensNothing(s: State, n: nat)
    requires n < |s.generations| && s.generations[n].phase != Active
    ensures Step(s, Open(n), s)
  {}

  // ---------------------------------------------------------------- a retirement from outside

  /** An active generation with nothing under way. */
  predicate IsIdle(s: State, n: nat) {
    At(s, n, Active) && s.generations[n].opening == 0 && s.generations[n].disposing == 0 && s.generations[n].hooks == 0
  }

  function Retires(s: State, n: nat, phase: Phase, hooks: nat): State
    requires n < |s.generations|
  {
    Put(s, n, s.generations[n].(phase := phase, hooks := hooks)).(contexts := s.contexts + {Hook(n, {n})})
  }

  /** A retirement waits for both of its hooks, then finishes, then settles; nothing else changes. */
  lemma {:induction false} RetirementSettles(s: State, n: nat)
    requires IsIdle(s, n)
    ensures Leads(s, [Event.Retire(n, Outside), HookDone(n), HookDone(n), Finish(n), Settle(n)], Retires(s, n, Settled, 0))
    ensures !Enabled(Retires(s, n, Retiring, 2), Finish(n)) && !Enabled(Retires(s, n, Retiring, 1), Finish(n))
    ensures RetireAnswer(s, n, Outside) == OwnRetirement
  {
    assert {} + {n} == {n};
    Chain([s, Retires(s, n, Retiring, 2), Retires(s, n, Retiring, 1), Retires(s, n, Retiring, 0), Retires(s, n, Retired, 0), Retires(s, n, Settled, 0)],
          [Event.Retire(n, Outside), HookDone(n), HookDone(n), Finish(n), Settle(n)]);
  }

  /** It is not finished while an open is under way, or being disposed. */
  lemma {:induction false} FinishWaits(s: State, n: nat)
    requires n < |s.generations|
    ensures Enabled(s, Finish(n)) <==> At(s, n, Retiring) && s.generations[n].hooks + s.generations[n].opening + s.generations[n].disposing == 0
  {}

  /** Retiring once more from outside changes nothing and gives the same promise. */
  lemma {:induction false} RetiringAgainChangesNothing(s: State, n: nat)
    requires n < |s.generations| && s.generations[n].phase != Active
    ensures Step(s, Event.Retire(n, Outside), s) && RetireAnswer(s, n, Outside) == OwnRetirement
  {}

  // ---------------------------------------------------------------- a retirement from inside a hook

  /** The caller waits for the target's promise, and the map says so if it is recorded. */
  function Waits(s: State, owner: nat, target: nat, recorded: bool): State {
    s.(waits := s.waits + {(owner, target)}, dependencies := if recorded then WithEdge(s.dependencies, owner, target) else s.dependencies)
  }

  /** The first call starts the retirement in a context under the caller's, and the caller waits for it. */
  lemma {:induction false} HookRetiresAnother(s: State, target: nat, within: Context)
    requires Invariant(s) && At(s, target, Active) && within in s.contexts
    ensures within.Hook?
    ensures
      var g := s.generations[target].(phase := Retiring, hooks := 2);
      var begun := Put(s, target, g).(contexts := s.contexts + {Hook(target, within.owners + {target})});
      Step(s, Event.Retire(target, within), Waits(begun, within.owner, target, true)) && RetireAnswer(s, target, within) == OwnRetirement
  {
    assert ContextInvariant(s, within);
    FirstRetireIsNotPutOff(s, target, within);
    assert forall o :: o in within.owners ==> Begun(s, o);
  }

  /** A later call is handed the promise as well, unless the target waits for the caller already: then it is put off. */
  lemma {:induction false} HookJoinsAnother(s: State, target: nat, within: Context)
    requires Invariant(s) && target < |s.generations| && s.generations[target].phase != Active && within in s.contexts && within.Hook?
    requires s.answersRetired ==> At(s, target, Retiring)
    ensures
      if target in within.owners || Reaches(s.dependencies, target, within.owner) then
        Step(s, Event.Retire(target, within), s) && RetireAnswer(s, target, within) == Acknowledged
      else
        Step(s, Event.Retire(target, within), Waits(s, within.owner, target, true)) && RetireAnswer(s, target, within) == OwnRetirement
  {}

  /** A generation that has retired hands out its promise before it looks at the caller, and records nothing. */
  lemma {:induction false} RetiredAnswersAtOnce(s: State, target: nat, within: Context)
    requires Invariant(s) && s.answersRetired && (At(s, target, Retired) || At(s, target, Settled)) && within in s.contexts && within.Hook?
    ensures Step(s, Event.Retire(target, within), Waits(s, within.owner, target, false)) && RetireAnswer(s, target, within) == OwnRetirement
  {}

  /** When either has settled, the recorded wait is taken out of the map, and no other. */
  lemma {:induction false} SettledWaitIsRemoved(s: State, owner: nat, target: nat)
    requires (owner, target) in s.waits && (At(s, owner, Settled) || At(s, target, Settled))
    ensures Enabled(s, Remove(owner, target))
    ensures var t := Next(s, Remove(owner, target));
            && t == s.(dependencies := t.dependencies)
            && forall x: nat, y: nat :: y in Waited(t.dependencies, x) <==> y in Waited(s.dependencies, x) && (x, y) != (owner, target)
  {}
}
