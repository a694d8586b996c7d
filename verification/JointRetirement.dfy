/**
 * Destination runtimes and their generations together. Each kind keeps its own map of waits, and
 * the wait of a runtime for its own generation is in neither. So each map stays acyclic while the
 * waits of both kinds together may not: a deadlock is possible, exactly through a generation's
 * hook that waits for a runtime.
 */
module JointRetirement {
  import opened RetirementGraph
  import opened Retirement
  import opened Wrappers

  datatype Party = Runtime(n: nat) | Configuration(n: nat)

  /** Where a call is made: the two asynchronous contexts, and the retirement whose hook makes it. */
  datatype Place = Place(runtime: Context, generation: Context, caller: Option<Party>)

  const ELSEWHERE := Place(Outside, Outside, None)

  /**
   * Both copies of the lifecycle, the generation of each runtime, the places that hooks run in,
   * and who was handed whose promise. A runtime's retirement runs its repository's hook and
   * retires its generation in one place.
   */
  datatype Joint = Joint(
    runtimes: State, configurations: State, owned: seq<nat>, places: set<Place>, waits: set<(Party, Party)>)

  const JOINT_START := Joint(Initial(false), Initial(true), [], {}, {})

  /** Every other step is a step of one copy alone. */
  datatype JointEvent =
    | CreateRuntime(generation: nat)
    | RuntimeStep(e: Event)
    | GenerationStep(e: Event)
    | GenerationOpened(n: nat, place: Place)
    | RetireRuntime(target: nat, place: Place)
    | RetireConfiguration(target: nat, place: Place)

  predicate UsablePlace(s: Joint, p: Place) {
    p == ELSEWHERE || p in s.places
  }

  /**
   * A runtime finishes after it has retired its generation, and, if it was handed that
   * retirement's promise, after the promise has settled.
   */
  predicate GenerationRetired(s: Joint, n: nat) {
    && n < |s.owned| && s.owned[n] < |s.configurations.generations| && !At(s.configurations, s.owned[n], Active)
    && ((Runtime(n), Configuration(s.owned[n])) in s.waits ==> At(s.configurations, s.owned[n], Settled))
  }

  /** A step that neither starts a retirement nor disposes a late connection. */
  predicate Plain(e: Event) {
    !e.Retire? && !e.Opened?
  }

  predicate JointEnabled(s: Joint, e: JointEvent) {
    match e
    case CreateRuntime(generation) => generation < |s.configurations.generations|
    case RuntimeStep(step) =>
      && Plain(step) && !step.Create? && !step.Open? && Enabled(s.runtimes, step)
      && (step.Finish? ==> GenerationRetired(s, step.n))
    case GenerationStep(step) => Plain(step) && Enabled(s.configurations, step)
    case GenerationOpened(n, place) => UsablePlace(s, place) && Enabled(s.configurations, Opened(n, place.generation))
    case RetireRuntime(target, place) => UsablePlace(s, place) && Enabled(s.runtimes, Retire(target, place.runtime))
    case RetireConfiguration(target, place) =>
      UsablePlace(s, place) && Enabled(s.configurations, Retire(target, place.generation))
  }

  function HookOf(n: nat, within: Context): Context {
    Hook(n, Owners(within) + {n})
  }

  /** The place a generation's hooks run in; the runtime's context is inherited. */
  function GenerationPlace(n: nat, place: Place): Place {
    Place(place.runtime, HookOf(n, place.generation), Some(Configuration(n)))
  }

  function RuntimePlace(n: nat, place: Place): Place {
    Place(HookOf(n, place.runtime), place.generation, Some(Runtime(n)))
  }

  function Opening(places: set<Place>, opens: bool, place: Place): set<Place> {
    if opens then places + {place} else places
  }

  /** A caller inside a hook that is handed the real promise waits for the target. */
  function Waiting(waits: set<(Party, Party)>, place: Place, target: Party, answer: Answer): set<(Party, Party)> {
    if place.caller.Some? && answer == OwnRetirement then waits + {(place.caller.value, target)} else waits
  }

  ghost function JointNext(s: Joint, e: JointEvent): Joint
    requires JointEnabled(s, e)
  {
    match e
    case CreateRuntime(generation) => s.(runtimes := Next(s.runtimes, Create), owned := s.owned + [generation])
    case RuntimeStep(step) => s.(runtimes := Next(s.runtimes, step))
    case GenerationStep(step) => s.(configurations := Next(s.configurations, step))
    case GenerationOpened(n, place) =>
      s.(configurations := Next(s.configurations, Opened(n, place.generation)),
         places := Opening(s.places, !At(s.configurations, n, Active), GenerationPlace(n, place)))
    case RetireRuntime(target, place) =>
      s.(runtimes := Next(s.runtimes, Retire(target, place.runtime)),
         places := Opening(s.places, Starts(s.runtimes, target, place.runtime), RuntimePlace(target, place)),
         waits := Waiting(s.waits, place, Runtime(target), RetireAnswer(s.runtimes, target, place.runtime)))
    case RetireConfiguration(target, place) =>
      s.(configurations := Next(s.configurations, Retire(target, place.generation)),
         places := Opening(s.places, Starts(s.configurations, target, place.generation), GenerationPlace(target, place)),
         waits := Waiting(s.waits, place, Configuration(target), RetireAnswer(s.configurations, target, place.generation)))
  }

  predicate Starts(s: State, target: nat, within: Context) {
    At(s, target, Active) && target !in Owners(within)
  }

  // ---------------------------------------------------------------- the invariant

  ghost predicate PlaceInvariant(s: Joint, p: Place) {
    && Usable(s.runtimes, p.runtime) && Usable(s.configurations, p.generation)
    && match p.caller
       case None => true
       case Some(Runtime(n)) => p.runtime.Hook? && p.runtime.owner == n
       case Some(Configuration(n)) => p.generation.Hook? && p.generation.owner == n
  }

  /** A wait within one kind is a wait of that kind's own system. */
  ghost predicate PairInvariant(s: Joint, w: (Party, Party)) {
    match w
    case (Runtime(m), Runtime(n)) => (m, n) in s.runtimes.waits
    case (Configuration(m), Configuration(n)) => (m, n) in s.configurations.waits
    case _ => true
  }

  ghost predicate PartyBegun(s: Joint, p: Party) {
    match p
    case Runtime(n) => Begun(s.runtimes, n)
    case Configuration(n) => Begun(s.configurations, n)
  }

  ghost predicate JointInvariant(s: Joint) {
    && Invariant(s.runtimes) && Invariant(s.configurations)
    && (forall p :: p in s.places ==> PlaceInvariant(s, p))
    && (forall w :: w in s.waits ==> PairInvariant(s, w) && PartyBegun(s, w.0) && PartyBegun(s, w.1))
  }

  /** The copies only add contexts and waits. */
  lemma {:induction false} StepsAddOnly(s: State, e: Event)
    requires Enabled(s, e)
    ensures s.contexts <= Next(s, e).contexts && s.waits <= Next(s, e).waits
  {}

  lemma {:induction false} BegunStays(s: State, e: Event, n: nat)
    requires Enabled(s, e) && Begun(s, n)
    ensures Begun(Next(s, e), n)
    ensures At(Next(s, e), n, Retiring) ==> At(s, n, Retiring)
    ensures e.Retire? && At(s, n, Retiring) ==> At(Next(s, e), n, Retiring)
  {}

  lemma {:induction false} PartyStaysBegun(s: Joint, after: Joint, e: Event, p: Party)
    requires PartyBegun(s, p)
    requires
      || (Enabled(s.runtimes, e) && after.runtimes == Next(s.runtimes, e) && after.configurations == s.configurations)
      || (Enabled(s.configurations, e) && after.configurations == Next(s.configurations, e) && after.runtimes == s.runtimes)
    ensures PartyBegun(after, p)
  {
    if p.Runtime? && after.runtimes != s.runtimes {
      BegunStays(s.runtimes, e, p.n);
    }
    if p.Configuration? && after.configurations != s.configurations {
      BegunStays(s.configurations, e, p.n);
    }
  }

  lemma {:induction false} CopyStepKeeps(s: Joint, after: Joint, e: Event)
    requires JointInvariant(s) && after.places == s.places && after.waits == s.waits
    requires
      || (Enabled(s.runtimes, e) && after.runtimes == Next(s.runtimes, e) && after.configurations == s.configurations)
      || (Enabled(s.configurations, e) && after.configurations == Next(s.configurations, e) && after.runtimes == s.runtimes)
    ensures JointInvariant(after)
  {
    if after.configurations == s.configurations && Enabled(s.runtimes, e) && after.runtimes == Next(s.runtimes, e) {
      StepKeepsInvariant(s.runtimes, e);
      StepsAddOnly(s.runtimes, e);
    } else {
      StepKeepsInvariant(s.configurations, e);
      StepsAddOnly(s.configurations, e);
    }
    forall p | p in after.places ensures PlaceInvariant(after, p) {
      assert PlaceInvariant(s, p);
    }
    forall w | w in after.waits ensures PairInvariant(after, w) && PartyBegun(after, w.0) && PartyBegun(after, w.1) {
      assert PairInvariant(s, w) && PartyBegun(s, w.0) && PartyBegun(s, w.1);
      PartyStaysBegun(s, after, e, w.0);
      PartyStaysBegun(s, after, e, w.1);
    }
  }

  lemma {:induction false} StartPublishes(s: State, target: nat, within: Context)
    requires Enabled(s, Retire(target, within))
    ensures Starts(s, target, within) ==> HookOf(target, within) in Next(s, Retire(target, within)).contexts
    ensures within.Hook? && RetireAnswer(s, target, within) == OwnRetirement ==>
              (within.owner, target) in Next(s, Retire(target, within)).waits
    ensures RetireAnswer(s, target, within) == OwnRetirement ==> Begun(Next(s, Retire(target, within)), target)
    ensures within.Hook? && within in s.contexts && Invariant(s) ==> Begun(Next(s, Retire(target, within)), within.owner)
  {
    if within.Hook? && within in s.contexts && Invariant(s) {
      assert ContextInvariant(s, within);
      BegunStays(s, Retire(target, within), within.owner);
    }
  }

  lemma {:induction false} RetireRuntimeKeeps(s: Joint, target: nat, place: Place)
    requires JointInvariant(s) && JointEnabled(s, RetireRuntime(target, place))
    ensures JointInvariant(JointNext(s, RetireRuntime(target, place)))
  {
    var e := Retire(target, place.runtime);
    var after := JointNext(s, RetireRuntime(target, place));
    var half := s.(runtimes := after.runtimes);
    CopyStepKeeps(s, half, e);
    StartPublishes(s.runtimes, target, place.runtime);
    assert PlaceInvariant(s, place);
    StepsAddOnly(s.runtimes, e);
    forall p | p in after.places ensures PlaceInvariant(after, p) {
      if p in s.places {
        assert PlaceInvariant(half, p);
      }
    }
    forall w | w in after.waits ensures PairInvariant(after, w) && PartyBegun(after, w.0) && PartyBegun(after, w.1) {
      if w in s.waits {
        assert PairInvariant(half, w) && PartyBegun(half, w.0) && PartyBegun(half, w.1);
      }
    }
  }

  lemma {:induction false} RetireConfigurationKeeps(s: Joint, target: nat, place: Place)
    requires JointInvariant(s) && JointEnabled(s, RetireConfiguration(target, place))
    ensures JointInvariant(JointNext(s, RetireConfiguration(target, place)))
  {
    var e := Retire(target, place.generation);
    var after := JointNext(s, RetireConfiguration(target, place));
    var half := s.(configurations := after.configurations);
    CopyStepKeeps(s, half, e);
    StartPublishes(s.configurations, target, place.generation);
    assert PlaceInvariant(s, place);
    StepsAddOnly(s.configurations, e);
    forall p | p in after.places ensures PlaceInvariant(after, p) {
      if p in s.places {
        assert PlaceInvariant(half, p);
      }
    }
    forall w | w in after.waits ensures PairInvariant(after, w) && PartyBegun(after, w.0) && PartyBegun(after, w.1) {
      if w in s.waits {
        assert PairInvariant(half, w) && PartyBegun(half, w.0) && PartyBegun(half, w.1);
      }
    }
  }

  lemma {:induction false} OpenedKeeps(s: Joint, n: nat, place: Place)
    requires JointInvariant(s) && JointEnabled(s, GenerationOpened(n, place))
    ensures JointInvariant(JointNext(s, GenerationOpened(n, place)))
  {
    var e := Opened(n, place.generation);
    var after := JointNext(s, GenerationOpened(n, place));
    var half := s.(configurations := after.configurations);
    CopyStepKeeps(s, half, e);
    assert PlaceInvariant(s, place);
    forall p | p in after.places ensures PlaceInvariant(after, p) {
      if p in s.places {
        assert PlaceInvariant(half, p);
      }
    }
    forall w | w in after.waits ensures PairInvariant(after, w) && PartyBegun(after, w.0) && PartyBegun(after, w.1) {
      assert PairInvariant(half, w) && PartyBegun(half, w.0) && PartyBegun(half, w.1);
    }
  }

  lemma {:induction false} JointStepKeepsInvariant(s: Joint, e: JointEvent)
    requires JointInvariant(s) && JointEnabled(s, e)
    ensures JointInvariant(JointNext(s, e))
  {
    match e
    case CreateRuntime(generation) => CopyStepKeeps(s, JointNext(s, e), Create);
    case RuntimeStep(step) => CopyStepKeeps(s, JointNext(s, e), step);
    case GenerationStep(step) => CopyStepKeeps(s, JointNext(s, e), step);
    case GenerationOpened(n, place) => OpenedKeeps(s, n, place);
    case RetireRuntime(target, place) => RetireRuntimeKeeps(s, target, place);
    case RetireConfiguration(target, place) => RetireConfigurationKeeps(s, target, place);
  }

  // ---------------------------------------------------------------- runs

  ghost predicate JointRun(s: Joint, events: seq<JointEvent>)
    decreases |events|
  {
    events == [] || (JointEnabled(s, events[0]) && JointRun(JointNext(s, events[0]), events[1..]))
  }

  ghost function JointAfter(s: Joint, events: seq<JointEvent>): Joint
    requires JointRun(s, events)
    decreases |events|
  {
    if events == [] then s else JointAfter(JointNext(s, events[0]), events[1..])
  }

  lemma {:induction false} JointRunKeepsInvariant(s: Joint, events: seq<JointEvent>)
    requires JointInvariant(s) && JointRun(s, events)
    ensures JointInvariant(JointAfter(s, events))
    decreases |events|
  {
    if events != [] {
      JointStepKeepsInvariant(s, events[0]);
      JointRunKeepsInvariant(JointNext(s, events[0]), events[1..]);
    }
  }

  // ---------------------------------------------------------------- deadlock

  predicate Pending(s: Joint, p: Party) {
    match p
    case Runtime(n) => At(s.runtimes, n, Retiring)
    case Configuration(n) => At(s.configurations, n, Retiring)
  }

  predicate LiveWait(s: Joint, x: Party, y: Party) {
    (x, y) in s.waits && Pending(s, x) && Pending(s, y)
  }

  /** Retirements under way of which each was handed the promise of another one of them. */
  ghost predicate Stuck(s: Joint, parties: set<Party>) {
    parties != {} && forall x :: x in parties ==> WaitsAmong(s, x, parties)
  }

  ghost predicate Deadlocked(s: Joint) {
    exists parties :: Stuck(s, parties)
  }

  ghost predicate WaitsAmong(s: Joint, x: Party, parties: set<Party>) {
    exists y :: y in parties && LiveWait(s, x, y)
  }

  ghost predicate Chain(s: Joint, path: seq<Party>) {
    path != [] && forall i :: 0 <= i < |path| - 1 ==> LiveWait(s, path[i], path[i + 1])
  }

  ghost predicate ChainFromTo(s: Joint, path: seq<Party>, x: Party, y: Party) {
    Chain(s, path) && path[0] == x && path[|path| - 1] == y
  }

  ghost predicate Leads(s: Joint, x: Party, y: Party) {
    exists path :: ChainFromTo(s, path, x, y)
  }

  lemma {:induction false} LeadsSelf(s: Joint, x: Party)
    ensures Leads(s, x, x)
  {
    assert ChainFromTo(s, [x], x, x);
  }

  lemma {:induction false} LeadsOn(s: Joint, x: Party, y: Party, z: Party)
    requires Leads(s, x, y) && LiveWait(s, y, z)
    ensures Leads(s, x, z)
  {
    var path :| ChainFromTo(s, path, x, y);
    assert ChainFromTo(s, path + [z], x, z);
  }

  /** The first wait on the way. */
  lemma {:induction false} FirstWait(s: Joint, x: Party, z: Party) returns (y: Party)
    requires Leads(s, x, z) && x != z
    ensures LiveWait(s, x, y) && Leads(s, y, z)
  {
    var path :| ChainFromTo(s, path, x, z);
    y := path[1];
    var rest := path[1..];
    forall i | 0 <= i < |rest| - 1 ensures LiveWait(s, rest[i], rest[i + 1]) {
      assert LiveWait(s, path[i + 1], path[i + 2]);
    }
    assert ChainFromTo(s, rest, y, z);
  }

  /** A generation's hook waits for a runtime whose waits lead back to that generation. */
  ghost predicate HookWaitsInCircle(s: Joint, g: nat, r: nat) {
    LiveWait(s, Configuration(g), Runtime(r)) && Leads(s, Runtime(r), Configuration(g))
  }

  function Waiters(s: Joint): set<Party> {
    set w | w in s.waits :: w.0
  }

  lemma {:induction false} CircleIsStuck(s: Joint, end: Party, start: Party)
    requires LiveWait(s, end, start) && Leads(s, start, end)
    ensures Deadlocked(s)
  {
    var parties := set x | x in Waiters(s) && Leads(s, start, x) && Leads(s, x, end);
    LeadsSelf(s, end);
    assert (end, start) in s.waits && end in parties;
    forall x | x in parties ensures WaitsAmong(s, x, parties) {
      if x == end {
        LeadsSelf(s, start);
        if start != end {
          var z := FirstWait(s, start, end);
          assert (start, z) in s.waits;
        }
        assert start in parties && LiveWait(s, x, start);
      } else {
        var y := FirstWait(s, x, end);
        LeadsOn(s, start, x, y);
        if y != end {
          var z := FirstWait(s, y, end);
          assert (y, z) in s.waits;
        }
        assert y in parties && LiveWait(s, x, y);
      }
    }
    assert Stuck(s, parties);
  }

  ghost predicate IsReached(s: Joint, parties: set<Party>, start: Party, reached: set<Party>) {
    forall x :: x in reached <==> x in parties && Leads(s, start, x)
  }

  lemma {:induction false} Partner(s: Joint, parties: set<Party>, x: Party) returns (y: Party)
    requires Stuck(s, parties) && x in parties
    ensures y in parties && LiveWait(s, x, y)
  {
    assert WaitsAmong(s, x, parties);
    y :| y in parties && LiveWait(s, x, y);
  }

  lemma {:induction false} ReachedWaits(s: Joint, parties: set<Party>, start: Party, reached: set<Party>, x: Party)
    requires IsReached(s, parties, start, reached) && x in reached && WaitsAmong(s, x, parties)
    ensures WaitsAmong(s, x, reached)
  {
    var y :| y in parties && LiveWait(s, x, y);
    LeadsOn(s, start, x, y);
  }

  /** What one of the parties leads to is stuck if all of it waits among the parties. */
  lemma {:induction false} ReachedIsStuck(s: Joint, parties: set<Party>, start: Party, reached: set<Party>)
    requires start in parties && IsReached(s, parties, start, reached)
    requires forall x :: x in reached ==> WaitsAmong(s, x, parties)
    ensures Stuck(s, reached)
  {
    LeadsSelf(s, start);
    assert start in reached;
    forall x | x in reached ensures WaitsAmong(s, x, reached) {
      ReachedWaits(s, parties, start, reached, x);
    }
  }

  lemma {:induction false} FreeConfiguration(s: Joint, ns: set<nat>) returns (x: nat)
    requires JointInvariant(s) && ns != {} && forall n :: n in ns ==> Pending(s, Configuration(n))
    ensures x in ns && forall y :: y in ns ==> !LiveWait(s, Configuration(x), Configuration(y))
  {
    x := FreeMember(s.configurations, ns);
    forall y | y in ns ensures !LiveWait(s, Configuration(x), Configuration(y)) {
      assert LiveWait(s, Configuration(x), Configuration(y)) ==> PairInvariant(s, (Configuration(x), Configuration(y)));
    }
  }

  lemma {:induction false} FreeRuntime(s: Joint, ns: set<nat>) returns (x: nat)
    requires JointInvariant(s) && ns != {} && forall n :: n in ns ==> Pending(s, Runtime(n))
    ensures x in ns && forall y :: y in ns ==> !LiveWait(s, Runtime(x), Runtime(y))
  {
    x := FreeMember(s.runtimes, ns);
    forall y | y in ns ensures !LiveWait(s, Runtime(x), Runtime(y)) {
      assert LiveWait(s, Runtime(x), Runtime(y)) ==> PairInvariant(s, (Runtime(x), Runtime(y)));
    }
  }

  function Configurations(parties: set<Party>): (ns: set<nat>)
    ensures forall n: nat :: n in ns <==> Configuration(n) in parties
  {
    set p | p in parties && p.Configuration? :: p.n
  }

  function Runtimes(parties: set<Party>): (ns: set<nat>)
    ensures forall n: nat :: n in ns <==> Runtime(n) in parties
  {
    set p | p in parties && p.Runtime? :: p.n
  }

  lemma {:induction false} StuckArePending(s: Joint, parties: set<Party>)
    requires Stuck(s, parties)
    ensures forall x :: x in parties ==> Pending(s, x)
  {
    forall x | x in parties ensures Pending(s, x) {
      var y := Partner(s, parties, x);
    }
  }

  /** Runtimes alone are not stuck. */
  lemma {:induction false} RuntimesAloneAreFree(s: Joint, parties: set<Party>) returns (x: Party)
    requires JointInvariant(s) && parties != {} && forall p :: p in parties ==> p.Runtime? && Pending(s, p)
    ensures x in parties && !WaitsAmong(s, x, parties)
  {
    var p :| p in parties;
    assert p == Runtime(p.n);
    var n := FreeRuntime(s, Runtimes(parties));
    x := Runtime(n);
    forall y | y in parties ensures !LiveWait(s, x, y) {
      assert y == Runtime(y.n);
    }
  }

  lemma {:induction false} SomeConfiguration(s: Joint, parties: set<Party>)
    requires JointInvariant(s) && Stuck(s, parties)
    ensures Configurations(parties) != {}
  {
    StuckArePending(s, parties);
    if c :| c in parties && c.Configuration? {
      assert c == Configuration(c.n);
    } else {
      var x := RuntimesAloneAreFree(s, parties);
      assert false;
    }
  }

  /** Among the stuck, a generation's hook waits for a runtime. */
  lemma {:induction false} HookWaitsForRuntime(s: Joint, parties: set<Party>) returns (g: nat, r: nat)
    requires JointInvariant(s) && Stuck(s, parties)
    ensures Configuration(g) in parties && Runtime(r) in parties && LiveWait(s, Configuration(g), Runtime(r))
  {
    SomeConfiguration(s, parties);
    StuckArePending(s, parties);
    g := FreeConfiguration(s, Configurations(parties));
    var y := Partner(s, parties, Configuration(g));
    assert y == if y.Configuration? then Configuration(y.n) else Runtime(y.n);
    r := y.n;
  }

  lemma {:induction false} FewerAreStuck(s: Joint, parties: set<Party>, start: Party, out: Party) returns (fewer: set<Party>)
    requires Stuck(s, parties) && start in parties && out in parties && !Leads(s, start, out)
    ensures Stuck(s, fewer) && |fewer| < |parties|
  {
    fewer := ReachedFrom(s, parties, start);
    ReachedIsStuck(s, parties, start, fewer);
    OneIsLeftOut(s, parties, start, out, fewer);
  }

  lemma {:induction false} OneIsLeftOut(s: Joint, parties: set<Party>, start: Party, out: Party, fewer: set<Party>)
    requires IsReached(s, parties, start, fewer) && out in parties && !Leads(s, start, out)
    ensures |fewer| < |parties|
  {
    SubsetSize(fewer, parties - {out});
  }

  lemma {:induction false} SubsetSize(a: set<Party>, b: set<Party>)
    requires a <= b
    ensures |a| <= |b|
    decreases a
  {
    if x :| x in a {
      SubsetSize(a - {x}, b - {x});
    }
  }

  lemma {:induction false} ReachedFrom(s: Joint, parties: set<Party>, start: Party) returns (reached: set<Party>)
    ensures IsReached(s, parties, start, reached)
  {
    reached := set x | x in parties && Leads(s, start, x);
  }

  lemma {:induction false} StuckHasCircle(s: Joint, parties: set<Party>) returns (g: nat, r: nat)
    requires JointInvariant(s) && Stuck(s, parties)
    ensures HookWaitsInCircle(s, g, r)
    decreases |parties|
  {
    g, r := HookWaitsForRuntime(s, parties);
    if !Leads(s, Runtime(r), Configuration(g)) {
      var fewer := FewerAreStuck(s, parties, Runtime(r), Configuration(g));
      g, r := StuckHasCircle(s, fewer);
    }
  }

  /**
   * When runtimes and generations deadlock: exactly if a generation's hook holds the promise of a
   * runtime whose waits lead back to that generation. Neither kind deadlocks alone.
   */
  lemma {:induction false} DeadlockIff(events: seq<JointEvent>)
    requires JointRun(JOINT_START, events)
    ensures
      var s := JointAfter(JOINT_START, events);
      Deadlocked(s) <==> exists g, r :: HookWaitsInCircle(s, g, r)
  {
    JointRunKeepsInvariant(JOINT_START, events);
    var s := JointAfter(JOINT_START, events);
    if parties :| Stuck(s, parties) {
      var g, r := StuckHasCircle(s, parties);
    }
    if g, r :| HookWaitsInCircle(s, g, r) {
      CircleIsStuck(s, Configuration(g), Runtime(r));
    }
  }

  // ---------------------------------------------------------------- the call that deadlocks

  /** Who is handed whose promise by a call. */
  ghost function Handed(s: Joint, e: JointEvent): Option<(Party, Party)>
    requires JointEnabled(s, e)
  {
    match e
    case RetireRuntime(target, place) =>
      if place.caller.Some? && RetireAnswer(s.runtimes, target, place.runtime) == OwnRetirement then
        Some((place.caller.value, Runtime(target)))
      else None
    case RetireConfiguration(target, place) =>
      if place.caller.Some? && RetireAnswer(s.configurations, target, place.generation) == OwnRetirement then
        Some((place.caller.value, Configuration(target)))
      else None
    case _ => None
  }

  lemma {:induction false} PendingWas(s: Joint, e: JointEvent, p: Party)
    requires JointEnabled(s, e) && PartyBegun(s, p) && Pending(JointNext(s, e), p)
    ensures Pending(s, p)
  {
    match e
    case RuntimeStep(step) => if p.Runtime? { BegunStays(s.runtimes, step, p.n); }
    case GenerationStep(step) => if p.Configuration? { BegunStays(s.configurations, step, p.n); }
    case GenerationOpened(n, place) => if p.Configuration? { BegunStays(s.configurations, Opened(n, place.generation), p.n); }
    case RetireRuntime(n, place) => if p.Runtime? { BegunStays(s.runtimes, Retire(n, place.runtime), p.n); }
    case RetireConfiguration(n, place) => if p.Configuration? { BegunStays(s.configurations, Retire(n, place.generation), p.n); }
    case CreateRuntime(_) =>
  }

  /** A call only adds waits; the retirements under way stay so. */
  lemma {:induction false} PendingStays(s: Joint, e: JointEvent, p: Party)
    requires JointEnabled(s, e) && Handed(s, e).Some? && Pending(s, p)
    ensures Pending(JointNext(s, e), p)
  {
    match e
    case RetireRuntime(n, place) => if p.Runtime? { BegunStays(s.runtimes, Retire(n, place.runtime), p.n); }
    case RetireConfiguration(n, place) => if p.Configuration? { BegunStays(s.configurations, Retire(n, place.generation), p.n); }
  }

  lemma {:induction false} WaitsAfter(s: Joint, e: JointEvent)
    requires JointEnabled(s, e)
    ensures JointNext(s, e).waits == if Handed(s, e).Some? then s.waits + {Handed(s, e).value} else s.waits
  {}

  lemma {:induction false} LiveWaitWas(s: Joint, e: JointEvent, x: Party, y: Party)
    requires JointInvariant(s) && JointEnabled(s, e) && LiveWait(JointNext(s, e), x, y)
    ensures LiveWait(s, x, y) || Handed(s, e) == Some((x, y))
  {
    WaitsAfter(s, e);
    if (x, y) in s.waits {
      assert PartyBegun(s, (x, y).0) && PartyBegun(s, (x, y).1);
      PendingWas(s, e, x);
      PendingWas(s, e, y);
    }
  }

  lemma {:induction false} LeadsStays(s: Joint, e: JointEvent, x: Party, y: Party)
    requires JointEnabled(s, e) && Handed(s, e).Some? && Leads(s, x, y)
    ensures Leads(JointNext(s, e), x, y)
  {
    var path :| ChainFromTo(s, path, x, y);
    WaitsAfter(s, e);
    forall i | 0 <= i < |path| - 1 ensures LiveWait(JointNext(s, e), path[i], path[i + 1]) {
      assert LiveWait(s, path[i], path[i + 1]);
      PendingStays(s, e, path[i]);
      PendingStays(s, e, path[i + 1]);
    }
    assert ChainFromTo(JointNext(s, e), path, x, y);
  }

  lemma {:induction false} CallerBegun(s: Joint, e: JointEvent)
    requires JointInvariant(s) && JointEnabled(s, e) && Handed(s, e).Some?
    ensures PartyBegun(s, Handed(s, e).value.0)
  {
    assert PlaceInvariant(s, e.place);
    match e.place.caller.value
    case Runtime(n) => assert ContextInvariant(s.runtimes, e.place.runtime);
    case Configuration(n) => assert ContextInvariant(s.configurations, e.place.generation);
  }

  /** Nobody whose retirement is under way is handed his own promise. */
  lemma {:induction false} HandedIsAnother(s: Joint, e: JointEvent)
    requires JointInvariant(s) && JointEnabled(s, e) && Handed(s, e).Some? && Pending(s, Handed(s, e).value.1)
    ensures Handed(s, e).value.0 != Handed(s, e).value.1
  {
    assert PlaceInvariant(s, e.place);
    if e.RetireRuntime? {
      assert e.place.runtime.Hook? ==> ContextInvariant(s.runtimes, e.place.runtime);
    } else {
      assert e.place.generation.Hook? ==> ContextInvariant(s.configurations, e.place.generation);
    }
  }

  /** The call hands out the promise of a retirement under way whose waits lead to the caller. */
  ghost predicate ClosesCircle(s: Joint, e: JointEvent)
    requires JointEnabled(s, e)
  {
    && Handed(s, e).Some? && Pending(s, Handed(s, e).value.1)
    && Leads(s, Handed(s, e).value.1, Handed(s, e).value.0)
  }

  lemma {:induction false} ClosingCircleDeadlocks(s: Joint, e: JointEvent)
    requires JointInvariant(s) && JointEnabled(s, e) && ClosesCircle(s, e)
    ensures Deadlocked(JointNext(s, e))
  {
    var (caller, target) := Handed(s, e).value;
    HandedIsAnother(s, e);
    var y := FirstWait(s, target, caller);
    PendingStays(s, e, target);
    CallerPending(s, target, caller);
    PendingStays(s, e, caller);
    LeadsStays(s, e, target, caller);
    WaitsAfter(s, e);
    CircleIsStuck(JointNext(s, e), caller, target);
  }

  /** Where waits lead, a retirement is under way. */
  lemma {:induction false} CallerPending(s: Joint, x: Party, y: Party)
    requires Leads(s, x, y) && x != y
    ensures Pending(s, y)
  {
    var path :| ChainFromTo(s, path, x, y);
    assert LiveWait(s, path[|path| - 2], path[|path| - 1]);
  }

  /** Without the new wait what the target leads to was stuck before. */
  lemma {:induction false} OldWaitsStick(s: Joint, e: JointEvent, parties: set<Party>, caller: Party, target: Party)
    requires JointInvariant(s) && JointEnabled(s, e) && Stuck(JointNext(s, e), parties)
    requires Handed(s, e) == Some((caller, target)) && target in parties && !Leads(s, target, caller)
    ensures Deadlocked(s)
  {
    var reached := ReachedFrom(s, parties, target);
    forall z | z in reached ensures WaitsAmong(s, z, parties) {
      OldWait(s, e, parties, caller, target, z);
    }
    ReachedIsStuck(s, parties, target, reached);
  }

  lemma {:induction false} OldWait(s: Joint, e: JointEvent, parties: set<Party>, caller: Party, target: Party, z: Party)
    requires JointInvariant(s) && JointEnabled(s, e) && Stuck(JointNext(s, e), parties)
    requires Handed(s, e) == Some((caller, target)) && z in parties && z != caller
    ensures WaitsAmong(s, z, parties)
  {
    var y := Partner(JointNext(s, e), parties, z);
    LiveWaitWas(s, e, z, y);
  }

  /** A deadlock that was not there before goes through the promise that was handed out. */
  lemma {:induction false} NewDeadlockIsClosed(s: Joint, e: JointEvent, parties: set<Party>)
    requires JointInvariant(s) && JointEnabled(s, e) && !Deadlocked(s) && Stuck(JointNext(s, e), parties)
    ensures ClosesCircle(s, e)
  {
    var caller := OneNewWait(s, e, parties);
    var target := Handed(s, e).value.1;
    if !Leads(s, target, caller) {
      OldWaitsStick(s, e, parties, caller, target);
    } else if target == caller {
      CallerBegun(s, e);
      StuckArePending(JointNext(s, e), parties);
      PendingWas(s, e, target);
    } else {
      var y := FirstWait(s, target, caller);
    }
  }

  /** Some of the stuck were not stuck before, so one holds the promise that was just handed out. */
  lemma {:induction false} OneNewWait(s: Joint, e: JointEvent, parties: set<Party>) returns (x: Party)
    requires JointInvariant(s) && JointEnabled(s, e) && !Deadlocked(s) && Stuck(JointNext(s, e), parties)
    ensures x in parties && Handed(s, e).Some? && Handed(s, e).value.0 == x && Handed(s, e).value.1 in parties
  {
    var after := JointNext(s, e);
    assert !Stuck(s, parties);
    x :| x in parties && !WaitsAmong(s, x, parties);
    var y := Partner(after, parties, x);
    LiveWaitWas(s, e, x, y);
    assert LiveWait(s, x, y) ==> WaitsAmong(s, x, parties);
  }

  /**
   * Which step makes a deadlock: exactly a call that hands its caller the promise of a target whose
   * waits already lead to that caller. Before the call both can be looked up.
   */
  lemma {:induction false} DeadlockingCall(events: seq<JointEvent>, e: JointEvent)
    requires JointRun(JOINT_START, events) && JointEnabled(JointAfter(JOINT_START, events), e)
    requires !Deadlocked(JointAfter(JOINT_START, events))
    ensures
      var s := JointAfter(JOINT_START, events);
      Deadlocked(JointNext(s, e)) <==> ClosesCircle(s, e)
  {
    JointRunKeepsInvariant(JOINT_START, events);
    var s := JointAfter(JOINT_START, events);
    if parties :| Stuck(JointNext(s, e), parties) {
      NewDeadlockIsClosed(s, e, parties);
    }
    if ClosesCircle(s, e) {
      ClosingCircleDeadlocks(s, e);
    }
  }

  // ---------------------------------------------------------------- a rule for hooks

  /** No hook of a generation retires a runtime. */
  predicate KeepsTheRule(e: JointEvent) {
    e.RetireRuntime? ==> e.place.caller.None? || e.place.caller.value.Runtime?
  }

  predicate NoHookWaitsUp(s: Joint) {
    forall w :: w in s.waits ==> !(w.0.Configuration? && w.1.Runtime?)
  }

  lemma {:induction false} RuleIsKept(s: Joint, events: seq<JointEvent>)
    requires NoHookWaitsUp(s) && JointRun(s, events) && forall e :: e in events ==> KeepsTheRule(e)
    ensures NoHookWaitsUp(JointAfter(s, events))
    decreases |events|
  {
    if events != [] {
      assert events[0] in events;
      WaitsAfter(s, events[0]);
      RuleIsKept(JointNext(s, events[0]), events[1..]);
    }
  }

  /** Where no hook of a generation retires a runtime, nothing ever deadlocks. */
  lemma {:induction false} RuleAvoidsDeadlock(events: seq<JointEvent>)
    requires JointRun(JOINT_START, events) && forall e :: e in events ==> KeepsTheRule(e)
    ensures !Deadlocked(JointAfter(JOINT_START, events))
  {
    RuleIsKept(JOINT_START, events);
    DeadlockIff(events);
    var s := JointAfter(JOINT_START, events);
    forall g, r ensures !HookWaitsInCircle(s, g, r) {
      assert (Configuration(g), Runtime(r)) in s.waits ==> (Configuration(g), Runtime(r)).0.Configuration?;
    }
  }

  // ---------------------------------------------------------------- the run that deadlocks

  lemma {:induction false} OneStep(s: Joint, e: JointEvent, rest: seq<JointEvent>)
    requires JointEnabled(s, e) && JointRun(JointNext(s, e), rest)
    ensures JointRun(s, [e] + rest) && JointAfter(s, [e] + rest) == JointAfter(JointNext(s, e), rest)
  {
    assert ([e] + rest)[1..] == rest;
  }

  lemma {:induction false} RunsJoin(s: Joint, first: seq<JointEvent>, second: seq<JointEvent>)
    requires JointRun(s, first) && JointRun(JointAfter(s, first), second)
    ensures JointRun(s, first + second) && JointAfter(s, first + second) == JointAfter(JointAfter(s, first), second)
    decreases |first|
  {
    if first == [] {
      assert first + second == second;
    } else {
      RunsJoin(JointNext(s, first[0]), first[1..], second);
      assert (first + second)[1..] == first[1..] + second;
    }
  }

  lemma {:induction false} NoWaitsNoReach(u: nat, v: nat)
    requires u != v
    ensures !Reaches(map[], u, v)
  {
    if Reaches(map[], u, v) {
      ClosedHoldsReached(map[], {u}, u, v);
    }
  }

  const FRESH := Generation(Active, 0, 0, 0, 0, 0, 0)
  const BEGINS := Generation(Retiring, 2, 0, 0, 0, 0, 0)

  function TwoOfEach(): Joint {
    Joint(Initial(false).(generations := [FRESH, FRESH]), Initial(true).(generations := [FRESH, FRESH]), [0, 1], {}, {})
  }

  lemma {:induction false} CreateTwoOfEach() returns (events: seq<JointEvent>)
    ensures JointRun(JOINT_START, events) && JointAfter(JOINT_START, events) == TwoOfEach()
  {
    var s1 := JointNext(JOINT_START, GenerationStep(Create));
    var s2 := JointNext(s1, GenerationStep(Create));
    var s3 := JointNext(s2, CreateRuntime(0));
    assert JointNext(s3, CreateRuntime(1)) == TwoOfEach();
    OneStep(s3, CreateRuntime(1), []);
    OneStep(s2, CreateRuntime(0), [CreateRuntime(1)]);
    OneStep(s1, GenerationStep(Create), [CreateRuntime(0)] + [CreateRuntime(1)]);
    OneStep(JOINT_START, GenerationStep(Create), [GenerationStep(Create)] + ([CreateRuntime(0)] + [CreateRuntime(1)]));
    events := [GenerationStep(Create)] + ([GenerationStep(Create)] + ([CreateRuntime(0)] + [CreateRuntime(1)]));
  }

  function RuntimeHook(n: nat): Place {
    RuntimePlace(n, ELSEWHERE)
  }

  function GenerationHook(n: nat): Place {
    GenerationPlace(n, RuntimeHook(n))
  }

  /** Both runtimes have begun to retire, each has retired its generation and waits for it. */
  function BothRetiring(): Joint {
    Joint(
      State(false, [BEGINS, BEGINS], map[], {HookOf(0, Outside), HookOf(1, Outside)}, {}),
      State(true, [BEGINS, BEGINS], map[], {HookOf(0, Outside), HookOf(1, Outside)}, {}),
      [0, 1],
      {RuntimeHook(0), RuntimeHook(1), GenerationHook(0), GenerationHook(1)},
      {(Runtime(0), Configuration(0)), (Runtime(1), Configuration(1))})
  }

  lemma {:induction false} RetireBoth() returns (events: seq<JointEvent>)
    ensures JointRun(TwoOfEach(), events) && JointAfter(TwoOfEach(), events) == BothRetiring()
  {
    var s0 := TwoOfEach();
    var s1 := JointNext(s0, RetireRuntime(0, ELSEWHERE));
    var s2 := JointNext(s1, RetireRuntime(1, ELSEWHERE));
    var s3 := JointNext(s2, RetireConfiguration(0, RuntimeHook(0)));
    assert JointNext(s3, RetireConfiguration(1, RuntimeHook(1))) == BothRetiring();
    OneStep(s3, RetireConfiguration(1, RuntimeHook(1)), []);
    OneStep(s2, RetireConfiguration(0, RuntimeHook(0)), [RetireConfiguration(1, RuntimeHook(1))]);
    var last := [RetireConfiguration(0, RuntimeHook(0))] + [RetireConfiguration(1, RuntimeHook(1))];
    OneStep(s1, RetireRuntime(1, ELSEWHERE), last);
    OneStep(s0, RetireRuntime(0, ELSEWHERE), [RetireRuntime(1, ELSEWHERE)] + last);
    events := [RetireRuntime(0, ELSEWHERE)] + ([RetireRuntime(1, ELSEWHERE)] + last);
  }

  /** Each map lets the second call through, since the way back goes through the other kind. */
  lemma {:induction false} HooksCross() returns (events: seq<JointEvent>)
    ensures JointRun(BothRetiring(), events)
    ensures
      var s := JointAfter(BothRetiring(), events);
      && LiveWait(s, Configuration(0), Runtime(1)) && LiveWait(s, Runtime(1), Configuration(1))
      && LiveWait(s, Configuration(1), Configuration(0))
  {
    var s0 := BothRetiring();
    NoWaitsNoReach(1, 0);
    NoWaitsNoReach(0, 1);
    var s1 := JointNext(s0, RetireRuntime(1, GenerationHook(0)));
    assert s1.configurations == s0.configurations && s1.places == s0.places;
    assert (Configuration(0), Runtime(1)) in s1.waits;
    OneStep(s1, RetireConfiguration(0, GenerationHook(1)), []);
    OneStep(s0, RetireRuntime(1, GenerationHook(0)), [RetireConfiguration(0, GenerationHook(1))]);
    events := [RetireRuntime(1, GenerationHook(0))] + [RetireConfiguration(0, GenerationHook(1))];
  }

  /**
   * Two runtimes retire from outside and each waits for its generation. One generation's hook
   * retires the other runtime, the other generation's hook retires the first generation. Both maps
   * are acyclic and the three retirements wait for each other.
   */
  lemma {:induction false} KindsCanDeadlock() returns (events: seq<JointEvent>)
    ensures JointRun(JOINT_START, events)
    ensures
      var s := JointAfter(JOINT_START, events);
      && Acyclic(s.runtimes.dependencies) && Acyclic(s.configurations.dependencies)
      && Stuck(s, {Configuration(0), Runtime(1), Configuration(1)})
  {
    var create := CreateTwoOfEach();
    var retire := RetireBoth();
    var cross := HooksCross();
    RunsJoin(TwoOfEach(), retire, cross);
    RunsJoin(JOINT_START, create, retire + cross);
    events := create + (retire + cross);
    JointRunKeepsInvariant(JOINT_START, events);
    var s := JointAfter(JOINT_START, events);
    var parties := {Configuration(0), Runtime(1), Configuration(1)};
    forall x | x in parties ensures WaitsAmong(s, x, parties) {
      if x == Configuration(0) {
        assert LiveWait(s, x, Runtime(1));
      } else if x == Runtime(1) {
        assert LiveWait(s, x, Configuration(1));
      } else {
        assert LiveWait(s, x, Configuration(0));
      }
    }
  }
}
