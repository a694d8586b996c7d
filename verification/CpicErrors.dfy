/**
 * When an error of a CPIC session misjudges the session. An error that says Reusable is wrong
 * exactly if the session has been ended behind its operation's back, which is said here of the
 * events of the run.
 */
module CpicErrors {
  import opened FailurePolicy
  import opened Wrappers
  import opened CpicSession

  // ---------------------------------------------------------------- the run, event by event

  /** The session after the first n events. */
  ghost function At(s: State, events: seq<Event>, n: nat): State
    requires Run(s, events) && n <= |events|
    decreases n
  {
    if n == 0 then s else At(Next(s, events[0]), events[1..], n - 1)
  }

  lemma {:induction false} AtNext(s: State, events: seq<Event>, n: nat)
    requires Run(s, events) && n < |events|
    ensures Enabled(At(s, events, n), events[n])
    ensures At(s, events, n + 1) == Next(At(s, events, n), events[n])
    decreases n
  {
    if n > 0 {
      AtNext(Next(s, events[0]), events[1..], n - 1);
    }
  }

  lemma {:induction false} AtEnd(s: State, events: seq<Event>)
    requires Run(s, events)
    ensures At(s, events, |events|) == After(s, events)
    decreases |events|
  {
    if events != [] {
      AtEnd(Next(s, events[0]), events[1..]);
    }
  }

  lemma {:induction false} AtInvariant(s: State, events: seq<Event>, n: nat)
    requires IsInitial(s) && Run(s, events) && n <= |events|
    ensures Invariant(At(s, events, n))
  {
    if n == 0 {
      InitialInvariant(s);
    } else {
      AtInvariant(s, events, n - 1);
      AtNext(s, events, n - 1);
      StepKeepsInvariant(At(s, events, n - 1), events[n - 1]);
    }
  }

  /** The operation an event belongs to, once it has been admitted. */
  function Actor(e: Event): Option<nat> {
    match e
    case Start(_, _) | StartReset(_) | Close => None
    case _ => Some(e.i)
  }

  predicate Closes(s: State, e: Event) {
    e.Close? && !s.closed && !s.busy && s.owner == None
  }

  /** The event ends the session. */
  predicate Ends(s: State, e: Event) {
    match e
    case RepliedAndDeallocated(_) => true
    case ExchangeFailed(_, _, _, _, _, _) => true
    case DecodeLogon(_, outcome) => outcome != Success
    case Decode(_, outcome) => outcome == Malformed || outcome == RuntimeError || outcome == Message
    case DecodeValue(_, ok) => !ok
    case _ => Closes(s, e)
  }

  /** The event ends the conversation, and the session with it. */
  predicate EndsConversation(s: State, e: Event) {
    e.RepliedAndDeallocated? || (e.ExchangeFailed? && e.setup) || Closes(s, e)
  }

  ghost predicate EndsAt(s: State, events: seq<Event>, j: nat)
    requires Run(s, events)
  {
    j < |events| && Ends(At(s, events, j), events[j])
  }

  ghost predicate ConversationEndsAt(s: State, events: seq<Event>, j: nat)
    requires Run(s, events)
  {
    j < |events| && EndsConversation(At(s, events, j), events[j])
  }

  predicate LogsOnAt(events: seq<Event>, j: nat) {
    j < |events| && events[j].DecodeLogon? && events[j].outcome == Success
  }

  /** The event sends a request of the operation. */
  ghost predicate BeginsAt(s: State, events: seq<Event>, m: nat, i: nat)
    requires Run(s, events)
  {
    && m < |events|
    && exists kind :: At(s, events, m + 1).exchanges == At(s, events, m).exchanges + [Exchange(i, kind)]
  }

  /** The error the event throws. */
  ghost predicate ThrowsAt(s: State, events: seq<Event>, n: nat, t: Thrown)
    requires Run(s, events)
  {
    n < |events| && At(s, events, n + 1).thrown == At(s, events, n).thrown + [t]
  }

  /** After the operation's exchange began, an event of another operation, or a close, ended the session. */
  ghost predicate Overtaken(s: State, events: seq<Event>, n: nat, i: nat)
    requires Run(s, events)
  {
    exists m, j :: 0 <= m < j < n && BeginsAt(s, events, m, i) && EndsAt(s, events, j) && Actor(events[j]) != Some(i)
  }

  /**
   * The session has been ended behind the operation's back. A call whose reply is a declared
   * exception was overtaken while the conversation went on; a reset starts after the session was
   * ended and another logon was decoded after that.
   */
  ghost predicate EndedBehindItsBack(s: State, events: seq<Event>, n: nat)
    requires Run(s, events) && n < |events|
  {
    match events[n]
    case Decode(i, outcome) =>
      && outcome == DeclaredException && Overtaken(s, events, n, i)
      && forall q :: 0 <= q < n ==> !ConversationEndsAt(s, events, q)
    case StartReset(_) => exists j, l :: 0 <= j < l < n && EndsAt(s, events, j) && LogsOnAt(events, l)
    case _ => false
  }

  // ---------------------------------------------------------------- what the events do to the session

  lemma {:induction false} StepEnds(s: State, e: Event)
    requires Invariant(s) && Enabled(s, e)
    ensures Next(s, e).closed <==> s.closed || Ends(s, e)
    ensures Next(s, e).setupClosed <==> s.setupClosed || EndsConversation(s, e)
  {
    match e
    case Start(kind, encodes) => StartLeavesFlags(s, kind, encodes);
    case StartReset(encodes) => ResetLeavesFlags(s, encodes);
    case StartRefresh(i, encodes) => HeadLeavesFlags(s, i, Refresh, encodes);
    case Decode(i, outcome) => DecodeEnds(s, i, outcome);
    case _ =>
  }

  predicate SameFlags(s: State, t: State) {
    s.closed == t.closed && s.setupClosed == t.setupClosed
  }

  lemma {:induction false} HeadLeavesFlags(s: State, i: nat, kind: Kind, encodes: bool)
    ensures SameFlags(s, BeginExchange(s, i, kind, encodes))
  {}

  lemma {:induction false} StartLeavesFlags(s: State, kind: Kind, encodes: bool)
    ensures SameFlags(s, AfterStart(s, kind, encodes))
  {
    HeadLeavesFlags(s.(operations := s.operations + [Operation(kind, Ended)]), |s.operations|, kind, encodes);
  }

  lemma {:induction false} ResetLeavesFlags(s: State, encodes: bool)
    ensures SameFlags(s, AfterStartReset(s, encodes))
  {
    var i := |s.operations|;
    HeadLeavesFlags(s.(operations := s.operations + [Operation(Reset, Ended)], owner := Some(i)), i, Reset, encodes);
  }

  lemma {:induction false} DecodeEnds(s: State, i: nat, outcome: Outcome)
    requires Invariant(s) && Enabled(s, Decode(i, outcome))
    ensures AfterDecode(s, i, outcome).closed <==> s.closed || Ends(s, Decode(i, outcome))
    ensures AfterDecode(s, i, outcome).setupClosed == s.setupClosed
  {
    assert OperationSound(s, i, s.operations[i]);
  }

  lemma {:induction false} ClosedIffEnded(s: State, events: seq<Event>, n: nat)
    requires IsInitial(s) && Run(s, events) && n <= |events|
    ensures At(s, events, n).closed <==> exists j :: 0 <= j < n && EndsAt(s, events, j)
  {
    if n > 0 {
      ClosedIffEnded(s, events, n - 1);
      assert At(s, events, n).closed <==> At(s, events, n - 1).closed || EndsAt(s, events, n - 1) by {
        AtNext(s, events, n - 1);
        AtInvariant(s, events, n - 1);
        StepEnds(At(s, events, n - 1), events[n - 1]);
      }
    }
  }

  lemma {:induction false} ConversationClosedIffEnded(s: State, events: seq<Event>, n: nat)
    requires IsInitial(s) && Run(s, events) && n <= |events|
    ensures At(s, events, n).setupClosed <==> exists j :: 0 <= j < n && ConversationEndsAt(s, events, j)
  {
    if n > 0 {
      ConversationClosedIffEnded(s, events, n - 1);
      assert At(s, events, n).setupClosed <==> At(s, events, n - 1).setupClosed || ConversationEndsAt(s, events, n - 1) by {
        AtNext(s, events, n - 1);
        AtInvariant(s, events, n - 1);
        StepEnds(At(s, events, n - 1), events[n - 1]);
      }
    }
  }

  lemma {:induction false} StepLogsOn(s: State, e: Event)
    requires Invariant(s) && Enabled(s, e) && Next(s, e).closed && Next(s, e).sessionId
    ensures s.closed && (s.sessionId || (e.DecodeLogon? && e.outcome == Success))
  {
    match e
    case Start(kind, encodes) =>
      HeadKeepsSession(s.(operations := s.operations + [Operation(kind, Ended)]), |s.operations|, kind, encodes);
    case StartReset(encodes) => ResetKeepsSession(s, encodes);
    case StartRefresh(i, encodes) => HeadKeepsSession(s, i, Refresh, encodes);
    case Decode(i, outcome) => DecodeKeepsSession(s, i, outcome);
    case _ =>
  }

  lemma {:induction false} DecodeKeepsSession(s: State, i: nat, outcome: Outcome)
    requires i < |s.operations| && AfterDecode(s, i, outcome).sessionId
    ensures s.sessionId && AfterDecode(s, i, outcome).closed == s.closed
  {}

  lemma {:induction false} HeadKeepsSession(s: State, i: nat, kind: Kind, encodes: bool)
    ensures BeginExchange(s, i, kind, encodes).sessionId == s.sessionId
    ensures BeginExchange(s, i, kind, encodes).closed == s.closed
  {}

  lemma {:induction false} ResetKeepsSession(s: State, encodes: bool)
    ensures AfterStartReset(s, encodes).sessionId == s.sessionId && AfterStartReset(s, encodes).closed == s.closed
  {}

  lemma {:induction false} LastLogsOn(s: State, events: seq<Event>, n: nat)
    requires IsInitial(s) && Run(s, events) && n < |events|
    requires At(s, events, n + 1).closed && At(s, events, n + 1).sessionId
    ensures At(s, events, n).closed && (At(s, events, n).sessionId || LogsOnAt(events, n))
  {
    AtNext(s, events, n);
    AtInvariant(s, events, n);
    StepLogsOn(At(s, events, n), events[n]);
  }

  lemma {:induction false} EndBefore(s: State, events: seq<Event>, n: nat) returns (j: nat)
    requires IsInitial(s) && Run(s, events) && n <= |events| && At(s, events, n).closed
    ensures j < n && EndsAt(s, events, j)
  {
    ClosedIffEnded(s, events, n);
    j :| j < n && EndsAt(s, events, j);
  }

  /** A closed session has a session id only through a logon decoded after its end. */
  lemma {:induction false} LogonAfterTheEnd(s: State, events: seq<Event>, n: nat) returns (j: nat, l: nat)
    requires IsInitial(s) && Run(s, events) && n <= |events|
    requires At(s, events, n).closed && At(s, events, n).sessionId
    ensures j < l < n && EndsAt(s, events, j) && LogsOnAt(events, l)
  {
    assert n > 0;
    LastLogsOn(s, events, n - 1);
    if At(s, events, n - 1).sessionId {
      j, l := LogonAfterTheEnd(s, events, n - 1);
    } else {
      j := EndBefore(s, events, n - 1);
      l := n - 1;
    }
  }

  // ---------------------------------------------------------------- what happens to one operation

  predicate Active(s: State, i: nat) {
    i < |s.operations| && IsActive(s.operations[i])
  }

  /** Only a start makes an operation active. */
  lemma {:induction false} OthersActivateNone(s: State, e: Event, i: nat)
    requires Enabled(s, e) && !e.Start? && !e.StartReset? && Active(Next(s, e), i)
    ensures Active(s, i)
  {
    match e
    case StartRefresh(j, encodes) => RefreshActivatesNone(s, j, encodes, i);
    case Decode(j, outcome) => DecodeActivatesNone(s, j, outcome, i);
    case _ =>
  }

  lemma {:induction false} RefreshActivatesNone(s: State, j: nat, encodes: bool, i: nat)
    requires Active(s, j) && Active(BeginExchange(s, j, Refresh, encodes), i)
    ensures Active(s, i)
  {}

  lemma {:induction false} DecodeActivatesNone(s: State, j: nat, outcome: Outcome, i: nat)
    requires Active(s, j) && Active(AfterDecode(s, j, outcome), i)
    ensures Active(s, i)
  {}

  lemma {:induction false} StepBegins(s: State, e: Event, i: nat)
    requires Enabled(s, e) && !Active(s, i) && Active(Next(s, e), i)
    ensures !s.closed && !Ends(s, e) && exists kind :: Next(s, e).exchanges == s.exchanges + [Exchange(i, kind)]
  {
    match e
    case Start(kind, encodes) => assert Next(s, e).exchanges == s.exchanges + [Exchange(i, kind)];
    case StartReset(encodes) => assert Next(s, e).exchanges == s.exchanges + [Exchange(i, Reset)];
    case _ => OthersActivateNone(s, e, i);
  }

  /** An operation under way has sent its request through an open session. */
  lemma {:induction false} BeganOpen(s: State, events: seq<Event>, n: nat, i: nat) returns (m: nat)
    requires IsInitial(s) && Run(s, events) && n <= |events| && Active(At(s, events, n), i)
    ensures m < n && BeginsAt(s, events, m, i) && !At(s, events, m).closed && !EndsAt(s, events, m)
  {
    AtNext(s, events, n - 1);
    if Active(At(s, events, n - 1), i) {
      m := BeganOpen(s, events, n - 1, i);
    } else {
      m := n - 1;
      StepBegins(At(s, events, m), events[m], i);
    }
  }

  /** The operation has nothing to decode any more. */
  predicate Doomed(s: State, i: nat) {
    i < |s.operations| && (s.operations[i].step.Failing? || s.operations[i].step.Throwing? || s.operations[i].step.Ended?)
  }

  lemma {:induction false} StepDooms(s: State, e: Event, i: nat)
    requires Enabled(s, e)
    requires Doomed(s, i) || (Ends(s, e) && !EndsConversation(s, e) && Actor(e) == Some(i))
    ensures Doomed(Next(s, e), i)
  {
    match e
    case Start(kind, encodes) => StartKeepsDoomed(s, kind, encodes, i);
    case StartReset(encodes) => ResetKeepsDoomed(s, encodes, i);
    case Decode(j, outcome) => DecodeDooms(s, j, outcome, i);
    case StartRefresh(j, encodes) => RefreshKeepsDoomed(s, j, encodes, i);
    case Close =>
    case _ => FailureDooms(s, e, i);
  }

  lemma {:induction false} FailureDooms(s: State, e: Event, i: nat)
    requires Enabled(s, e) && !e.Start? && !e.StartReset? && !e.Decode? && !e.StartRefresh? && !e.Close?
    requires Doomed(s, i) || (Ends(s, e) && !e.RepliedAndDeallocated? && e.i == i)
    ensures Doomed(Next(s, e), i)
  {}

  lemma {:induction false} RefreshKeepsDoomed(s: State, j: nat, encodes: bool, i: nat)
    requires AtStep(s, j, Refreshing) && Doomed(s, i)
    ensures Doomed(BeginExchange(s, j, Refresh, encodes), i)
  {}

  lemma {:induction false} StartKeepsDoomed(s: State, kind: Kind, encodes: bool, i: nat)
    requires Doomed(s, i)
    ensures Doomed(AfterStart(s, kind, encodes), i)
  {}

  lemma {:induction false} ResetKeepsDoomed(s: State, encodes: bool, i: nat)
    requires Doomed(s, i)
    ensures Doomed(AfterStartReset(s, encodes), i)
  {}

  lemma {:induction false} DecodeDooms(s: State, j: nat, outcome: Outcome, i: nat)
    requires AtStep(s, j, Decoding)
    requires Doomed(s, i) || (i == j && (outcome == Malformed || outcome == RuntimeError || outcome == Message))
    ensures Doomed(AfterDecode(s, j, outcome), i)
  {}

  lemma {:induction false} DoomedFor(s: State, events: seq<Event>, j: nat, n: nat, i: nat)
    requires Run(s, events) && j < n <= |events|
    requires EndsAt(s, events, j) && !ConversationEndsAt(s, events, j) && Actor(events[j]) == Some(i)
    ensures Doomed(At(s, events, n), i)
    decreases n
  {
    AtNext(s, events, n - 1);
    if j < n - 1 {
      DoomedFor(s, events, j, n - 1, i);
    }
    StepDooms(At(s, events, n - 1), events[n - 1], i);
  }

  /** Whoever holds a reply in a closed session whose conversation stands has been overtaken. */
  lemma {:induction false} HolderOvertaken(s: State, events: seq<Event>, n: nat, i: nat)
    requires IsInitial(s) && Run(s, events) && n <= |events|
    requires AtStep(At(s, events, n), i, Decoding) && At(s, events, n).closed && !At(s, events, n).setupClosed
    ensures Overtaken(s, events, n, i)
  {
    var m := BeganOpen(s, events, n, i);
    ClosedIffEnded(s, events, m);
    ConversationClosedIffEnded(s, events, n);
    var j := EndBefore(s, events, n);
    assert m < j;
    if Actor(events[j]) == Some(i) {
      DoomedFor(s, events, j, n, i);
    }
  }

  // ---------------------------------------------------------------- the errors

  predicate Throws(s: State, after: State, t: Thrown) {
    after.thrown == s.thrown + [t]
  }

  lemma {:induction false} LastThrown(s: State, after: State, t: Thrown)
    requires Throws(s, after, t)
    ensures |after.thrown| > |s.thrown| && after.thrown[|s.thrown|] == t
  {}

  lemma {:induction false} HeadThrowsAware(s: State, i: nat, kind: Kind, encodes: bool, t: Thrown)
    requires Throws(s, BeginExchange(s, i, kind, encodes), t)
    ensures !s.closed && t.closed == s.closed
  {
    LastThrown(s, BeginExchange(s, i, kind, encodes), t);
  }

  lemma {:induction false} ResetThrowsUnaware(s: State, encodes: bool, t: Thrown)
    requires Throws(s, AfterStartReset(s, encodes), t)
    ensures s.sessionId && t.closed == s.closed && (ThrownUnaware(t) <==> s.closed)
  {
    LastThrown(s, AfterStartReset(s, encodes), t);
  }

  lemma {:induction false} DecodeThrows(s: State, i: nat, outcome: Outcome, t: Thrown)
    requires Invariant(s) && Enabled(s, Decode(i, outcome)) && Throws(s, AfterDecode(s, i, outcome), t)
    ensures if outcome == DeclaredException then !s.setupClosed && (ThrownUnaware(t) <==> s.closed) else !ThrownUnaware(t)
  {
    LastThrown(s, AfterDecode(s, i, outcome), t);
  }

  lemma {:induction false} FailureThrowsAware(s: State, e: Event, t: Thrown)
    requires Invariant(s) && Enabled(s, e) && (e.ExchangeThrows? || e.ThrowNow?) && Throws(s, Next(s, e), t)
    ensures !ThrownUnaware(t)
  {
    LastThrown(s, Next(s, e), t);
    assert OperationSound(s, e.i, s.operations[e.i]);
  }

  predicate Unguarded(e: Event) {
    e.StartReset? || (e.Decode? && e.outcome == DeclaredException)
  }

  /** Which events throw where they do not look at the session. */
  lemma {:induction false} StepThrowsUnaware(s: State, e: Event, t: Thrown)
    requires Invariant(s) && Enabled(s, e) && Throws(s, Next(s, e), t)
    ensures e.StartReset? ==> s.sessionId
    ensures e.Decode? && Unguarded(e) ==> !s.setupClosed
    ensures ThrownUnaware(t) <==> Unguarded(e) && s.closed
  {
    match e
    case Start(kind, encodes) =>
      HeadThrowsAware(s.(operations := s.operations + [Operation(kind, Ended)]), |s.operations|, kind, encodes, t);
    case StartReset(encodes) => ResetThrowsUnaware(s, encodes, t);
    case StartRefresh(i, encodes) => HeadThrowsAware(s, i, Refresh, encodes, t);
    case Decode(i, outcome) => DecodeThrows(s, i, outcome, t);
    case ExchangeThrows(_) => FailureThrowsAware(s, e, t);
    case ThrowNow(_) => FailureThrowsAware(s, e, t);
    case _ => LastThrown(s, Next(s, e), t);
  }

  lemma {:induction false} UnawareIffEndedBehindItsBack(s: State, events: seq<Event>, n: nat, t: Thrown)
    requires IsInitial(s) && Run(s, events) && ThrowsAt(s, events, n, t)
    ensures ThrownUnaware(t) <==> EndedBehindItsBack(s, events, n)
  {
    var before := At(s, events, n);
    AtNext(s, events, n);
    AtInvariant(s, events, n);
    StepThrowsUnaware(before, events[n], t);
    ClosedIffEnded(s, events, n);
    ConversationClosedIffEnded(s, events, n);
    match events[n]
    case Decode(i, outcome) =>
      if outcome == DeclaredException && before.closed {
        HolderOvertaken(s, events, n, i);
      }
    case StartReset(_) =>
      if before.closed {
        var j, l := LogonAfterTheEnd(s, events, n);
        assert EndsAt(s, events, j) && LogsOnAt(events, l);
      }
    case _ =>
  }

  /**
   * Over every interleaving and for every error thrown: the error says that the connection stays
   * reusable exactly when the session is open, if and only if the session has not been ended
   * behind the operation's back; an error that does not say so leaves a closed session; and one
   * that says so was thrown with nothing sent or with a complete reply that declares an exception.
   */
  lemma {:induction false} ErrorsAgreeWithSession(start: State, events: seq<Event>, n: nat, t: Thrown)
    requires IsInitial(start) && Run(start, events) && ThrowsAt(start, events, n, t)
    ensures (SaysReusable(t) <==> IsOpen(t)) <==> !EndedBehindItsBack(start, events, n)
    ensures !SaysReusable(t) ==> !IsOpen(t)
    ensures SaysReusable(t) ==>
              (t.context.transmission == NotStarted && Local(t.context.category))
              || (t.context.transmission == Complete && t.context.category == AbapException)
  {
    ReusableMeansSynchronized(t.context);
    UnawareIffEndedBehindItsBack(start, events, n, t);
    AtInvariant(start, events, n + 1);
    var thrown := At(start, events, n + 1).thrown;
    assert thrown[|thrown| - 1] == t;
  }

  lemma {:induction false} StepThrowsOnce(s: State, e: Event)
    requires Enabled(s, e)
    ensures Next(s, e).thrown == s.thrown || exists t :: Next(s, e).thrown == s.thrown + [t]
  {
    var after := Next(s, e).thrown;
    if |after| > |s.thrown| {
      assert after == s.thrown + [after[|s.thrown|]];
    }
  }

  lemma {:induction false} EveryErrorIsThrown(s: State, events: seq<Event>, n: nat, k: nat) returns (m: nat)
    requires IsInitial(s) && Run(s, events) && n <= |events| && k < |At(s, events, n).thrown|
    ensures m < n && ThrowsAt(s, events, m, At(s, events, n).thrown[k])
  {
    AtNext(s, events, n - 1);
    var before, after := At(s, events, n - 1), At(s, events, n);
    StepThrowsOnce(before, events[n - 1]);
    if k < |before.thrown| {
      m := EveryErrorIsThrown(s, events, n - 1, k);
    } else {
      m := n - 1;
    }
  }

  /** Each error of a run is thrown by one of its events. */
  lemma {:induction false} ErrorOfARun(s: State, events: seq<Event>, k: nat) returns (n: nat)
    requires IsInitial(s) && Run(s, events) && k < |After(s, events).thrown|
    ensures n < |events| && ThrowsAt(s, events, n, After(s, events).thrown[k])
  {
    AtEnd(s, events);
    n := EveryErrorIsThrown(s, events, |events|, k);
  }

  // ---------------------------------------------------------------- callers that overlap

  /**
   * A second operation fails, and ends the session, between the arrival of a declared exception
   * and its decoding. The exception then says Reusable.
   */
  lemma {:induction false} OverlappingCallersCanDisagree(start: State) returns (events: seq<Event>)
    requires IsInitial(start)
    ensures Run(start, events) && |After(start, events).thrown| == 1
    ensures
      var t := After(start, events).thrown[0];
      t.context.category == AbapException && SaysReusable(t) && t.closed
  {
    var first := ReplyInHand(start);
    var held := After(start, first);
    var fails := ExchangeFailed(2, MalformedProtocol, Appc, Send, NotStarted, false);
    var s1 := Next(held, Start(Raw, true));
    var s2 := Next(s1, fails);
    OneStep(s2, Decode(1, DeclaredException), []);
    OneStep(s1, fails, [Decode(1, DeclaredException)]);
    OneStep(held, Start(Raw, true), [fails] + [Decode(1, DeclaredException)]);
    var second := [Start(Raw, true)] + ([fails] + [Decode(1, DeclaredException)]);
    OneAfterAnother(start, first, second);
    events := first + second;
  }

  /** A session after logon that holds the reply of a call, not yet decoded. */
  lemma {:induction false} ReplyInHand(start: State) returns (events: seq<Event>)
    requires IsInitial(start)
    ensures Run(start, events)
    ensures
      var s := After(start, events);
      && s.authenticated && !s.closed && !s.setupClosed && !s.busy && s.owner == None && s.thrown == []
      && s.operations == [Operation(LogonAndPing, Ended), Operation(Regular, Decoding)]
  {
    var s1 := Next(start, Start(LogonAndPing, true));
    var s2 := Next(s1, Replied(0));
    var s3 := Next(s2, DecodeLogon(0, Success));
    var s4 := Next(s3, Start(Regular, true));
    OneStep(s4, Replied(1), []);
    OneStep(s3, Start(Regular, true), [Replied(1)]);
    OneStep(s2, DecodeLogon(0, Success), [Start(Regular, true)] + [Replied(1)]);
    OneStep(s1, Replied(0), [DecodeLogon(0, Success)] + ([Start(Regular, true)] + [Replied(1)]));
    events := [Start(LogonAndPing, true)] + ([Replied(0)] + ([DecodeLogon(0, Success)] + ([Start(Regular, true)] + [Replied(1)])));
    OneStep(start, Start(LogonAndPing, true), [Replied(0)] + ([DecodeLogon(0, Success)] + ([Start(Regular, true)] + [Replied(1)])));
  }

  /**
   * Two logons overlap. The reply of the first is malformed and ends the session, the second
   * succeeds and hands the ended session an id, and a reset is then turned away, because a raw
   * exchange is in flight, with an error that says Reusable.
   */
  lemma {:induction false} OverlappingLogonsCanDisagree(start: State) returns (events: seq<Event>)
    requires IsInitial(start)
    ensures Run(start, events) && |After(start, events).thrown| == 1
    ensures
      var t := After(start, events).thrown[0];
      t.site == ResetAvailability && SaysReusable(t) && t.closed
  {
    var first := TwoLogonsInHand(start);
    var s0 := After(start, first);
    var s1 := Next(s0, Start(Raw, true));
    var s2 := Next(s1, DecodeLogon(0, Malformed));
    var s3 := Next(s2, DecodeLogon(1, Success));
    OneStep(s3, StartReset(true), []);
    OneStep(s2, DecodeLogon(1, Success), [StartReset(true)]);
    OneStep(s1, DecodeLogon(0, Malformed), [DecodeLogon(1, Success)] + [StartReset(true)]);
    OneStep(s0, Start(Raw, true), [DecodeLogon(0, Malformed)] + ([DecodeLogon(1, Success)] + [StartReset(true)]));
    var second := [Start(Raw, true)] + ([DecodeLogon(0, Malformed)] + ([DecodeLogon(1, Success)] + [StartReset(true)]));
    OneAfterAnother(start, first, second);
    events := first + second;
  }

  /** A session that holds the replies of two logons, neither decoded. */
  lemma {:induction false} TwoLogonsInHand(start: State) returns (events: seq<Event>)
    requires IsInitial(start)
    ensures Run(start, events)
    ensures
      var s := After(start, events);
      && !s.authenticated && !s.closed && !s.setupClosed && !s.busy && s.owner == None && s.thrown == []
      && s.operations == [Operation(LogonAndPing, Decoding), Operation(LogonAndPing, Decoding)]
  {
    var s1 := Next(start, Start(LogonAndPing, true));
    var s2 := Next(s1, Replied(0));
    var s3 := Next(s2, Start(LogonAndPing, true));
    OneStep(s3, Replied(1), []);
    OneStep(s2, Start(LogonAndPing, true), [Replied(1)]);
    OneStep(s1, Replied(0), [Start(LogonAndPing, true)] + [Replied(1)]);
    OneStep(start, Start(LogonAndPing, true), [Replied(0)] + ([Start(LogonAndPing, true)] + [Replied(1)]));
    events := [Start(LogonAndPing, true)] + ([Replied(0)] + ([Start(LogonAndPing, true)] + [Replied(1)]));
  }

  lemma {:induction false} OneStep(s: State, e: Event, rest: seq<Event>)
    requires Enabled(s, e) && Run(Next(s, e), rest)
    ensures Run(s, [e] + rest) && After(s, [e] + rest) == After(Next(s, e), rest)
  {
    assert ([e] + rest)[1..] == rest;
  }

  lemma {:induction false} OneAfterAnother(s: State, first: seq<Event>, second: seq<Event>)
    requires Run(s, first) && Run(After(s, first), second)
    ensures Run(s, first + second) && After(s, first + second) == After(After(s, first), second)
    decreases |first|
  {
    if first == [] {
      assert first + second == second;
    } else {
      OneAfterAnother(Next(s, first[0]), first[1..], second);
      assert (first + second)[1..] == first[1..] + second;
    }
  }
}
