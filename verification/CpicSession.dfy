/**
 * A CPIC session and the errors it throws. The failure policy says of every error whether the
 * connection stays reusable; this module compares that with what the session did to itself,
 * over every interleaving of operations on one session.
 */
module CpicSession {
  import opened FailurePolicy
  import opened Wrappers

  /** What an exchange is for; a context reset consists of a Reset and a Refresh exchange. */
  datatype Kind = LogonAndPing | Regular | Raw | Reset | Refresh

  /**
   * Where an operation stands: in its exchange; with a reply that ended the conversation and the
   * transport closing; with a failure and the transport closing; holding a reply; holding
   * decoded fields; between the two exchanges of a reset; about to throw after the generation
   * was ended; over.
   */
  datatype Step =
    | Exchanging | Returning | Failing(context: Context) | Decoding | Valuing | Refreshing | Throwing(context: Context) | Ended

  datatype Operation = Operation(kind: Kind, step: Step)

  /** Where an error came from, as far as it matters. */
  datatype Site = ResetAvailability | Availability | Encoding | Transport | Envelope | Value

  /** A thrown error and the session at that instant. */
  datatype Thrown = Thrown(context: Context, site: Site, closed: bool, setupClosed: bool)

  datatype Exchange = Exchange(operation: nat, kind: Kind)

  datatype State = State(
    closed: bool,
    setupClosed: bool,
    authenticated: bool,
    sessionId: bool,
    busy: bool,
    owner: Option<nat>,
    operations: seq<Operation>,
    exchanges: seq<Exchange>,
    thrown: seq<Thrown>)

  predicate IsInitial(s: State) {
    && !s.closed && !s.setupClosed && !s.authenticated && !s.sessionId && !s.busy && s.owner == None
    && s.operations == [] && s.exchanges == [] && s.thrown == []
  }

  datatype Outcome = Success | Malformed | DeclaredException | RuntimeError | Message

  datatype Event =
    | Start(kind: Kind, encodes: bool)
    | StartReset(encodes: bool)
    | Replied(i: nat)
    | RepliedAndDeallocated(i: nat)
    | Returned(i: nat)
    | ExchangeFailed(i: nat, category: Category, origin: Origin, phase: Phase, transmission: Transmission, setup: bool)
    | ExchangeThrows(i: nat)
    | DecodeLogon(i: nat, outcome: Outcome)
    | Decode(i: nat, outcome: Outcome)
    | DecodeValue(i: nat, ok: bool)
    | StartRefresh(i: nat, encodes: bool)
    | ThrowNow(i: nat)
    | Close

  // ---------------------------------------------------------------- steps

  function WithStep(s: State, i: nat, step: Step): State {
    if i < |s.operations| then s.(operations := s.operations[i := s.operations[i].(step := step)]) else s
  }

  /** An operation ends; a compound owner gives up its claim. */
  function EndOperation(s: State, i: nat): State {
    WithStep(s, i, Ended).(owner := if s.owner == Some(i) then None else s.owner)
  }

  function Throw(s: State, i: nat, context: Context, site: Site): State {
    EndOperation(s, i).(thrown := s.thrown + [Thrown(context, site, s.closed, s.setupClosed)])
  }

  /** The physical generation ends: nothing of it may be used again. */
  function Terminated(s: State): State {
    s.(closed := true, sessionId := false)
  }

  function ConcurrentCall(s: State): Context {
    Context(InvalidState, Api, Send, NotStarted, s.authenticated)
  }

  predicate Unavailable(s: State, i: nat) {
    s.busy || (s.owner.Some? && s.owner != Some(i))
  }

  /** The head of an exchange, up to its first await. */
  function BeginExchange(s: State, i: nat, kind: Kind, encodes: bool): State {
    if s.closed then EndOperation(s, i)
    else if Unavailable(s, i) then Throw(s, i, ConcurrentCall(s), Availability)
    else if !encodes then Throw(s, i, Context(Serialization, Codec, Encode, NotStarted, s.authenticated), Encoding)
    else Sending(s, i, kind)
  }

  function Sending(s: State, i: nat, kind: Kind): State {
    if i < |s.operations| then
      s.(operations := s.operations[i := Operation(kind, Exchanging)], busy := true, exchanges := s.exchanges + [Exchange(i, kind)])
    else s
  }

  function AfterStart(s: State, kind: Kind, encodes: bool): State {
    var i := |s.operations|;
    var admitted := s.(operations := s.operations + [Operation(kind, Ended)]);
    if (kind == LogonAndPing && s.authenticated) || (kind == Regular && !(s.authenticated && s.sessionId)) then admitted
    else BeginExchange(admitted, i, kind, encodes)
  }

  /** The compound operation checks availability, claims the session, then sends the reset. */
  function AfterStartReset(s: State, encodes: bool): State {
    var i := |s.operations|;
    var admitted := s.(operations := s.operations + [Operation(Reset, Ended)]);
    if !(s.authenticated && s.sessionId) then admitted
    else if s.busy || s.owner.Some? then Throw(admitted, i, ConcurrentCall(s), ResetAvailability)
    else BeginExchange(admitted.(owner := Some(i)), i, Reset, encodes)
  }

  function AfterReturn(s: State, i: nat): State
    requires i < |s.operations|
  {
    WithStep(s, i, if s.operations[i].kind == Raw then Ended else Decoding).(busy := false)
  }

  function AfterDecodeLogon(s: State, i: nat, outcome: Outcome): State
    requires i < |s.operations|
  {
    match outcome
    case Success => WithStep(s, i, Ended).(sessionId := true, authenticated := true)
    case Malformed => WithStep(Terminated(s), i, Throwing(Context(MalformedProtocol, Cpic, LogonPhase, Complete, false)))
    case _ => WithStep(Terminated(s), i, Throwing(Context(Logon, Sap, LogonPhase, Complete, false)))
  }

  function RemoteCategory(outcome: Outcome): Category {
    match outcome
    case DeclaredException => AbapException
    case RuntimeError => AbapRuntime
    case _ => AbapMessage
  }

  /** The envelope of a reply; a conversation that has ended overrides a reusable outcome. */
  function AfterDecode(s: State, i: nat, outcome: Outcome): State
    requires i < |s.operations|
  {
    if outcome == Malformed then
      WithStep(Terminated(s), i, Throwing(Context(MalformedProtocol, Cpic, EnvelopeDecode, Complete, s.authenticated)))
    else if outcome != Success then
      var context :=
        Context(RemoteCategory(outcome), if s.setupClosed then Appc else Sap, EnvelopeDecode, Complete, s.authenticated);
      if DispositionOf(context) != Reusable then WithStep(Terminated(s), i, Throwing(context))
      else Throw(s, i, context, Envelope)
    else if s.setupClosed then
      Throw(s, i, Context(Communication, Appc, EnvelopeDecode, Complete, s.authenticated), Envelope)
    else if s.operations[i].kind == Reset then WithStep(s, i, Refreshing)
    else if s.operations[i].kind == Refresh then EndOperation(s, i)
    else WithStep(s, i, Valuing)
  }

  function AfterClose(s: State): State {
    if s.closed || s.busy || s.owner.Some? then s else Terminated(s).(setupClosed := true)
  }

  predicate AtStep(s: State, i: nat, step: Step) {
    i < |s.operations| && s.operations[i].step == step
  }

  predicate TransportCategory(c: Category) {
    c.Canceled? || c.Timeout? || c.Communication? || c.MalformedProtocol?
  }

  predicate Enabled(s: State, e: Event) {
    match e
    case Start(kind, _) => kind == LogonAndPing || kind == Regular || kind == Raw
    case StartReset(_) | Close => true
    case Replied(i) => AtStep(s, i, Exchanging)
    case RepliedAndDeallocated(i) => AtStep(s, i, Exchanging)
    case Returned(i) => AtStep(s, i, Returning)
    case ExchangeFailed(i, category, _, _, _, _) => (AtStep(s, i, Exchanging) || AtStep(s, i, Returning)) && TransportCategory(category)
    case ExchangeThrows(i) => i < |s.operations| && s.operations[i].step.Failing?
    case DecodeLogon(i, _) => AtStep(s, i, Decoding) && s.operations[i].kind == LogonAndPing
    case Decode(i, _) => AtStep(s, i, Decoding) && s.operations[i].kind != LogonAndPing
    case DecodeValue(i, _) => AtStep(s, i, Valuing)
    case StartRefresh(i, _) => AtStep(s, i, Refreshing)
    case ThrowNow(i) => i < |s.operations| && s.operations[i].step.Throwing?
  }

  function Next(s: State, e: Event): State
    requires Enabled(s, e)
  {
    match e
    case Start(kind, encodes) => AfterStart(s, kind, encodes)
    case StartReset(encodes) => AfterStartReset(s, encodes)
    case Replied(i) => AfterReturn(s, i)
    case RepliedAndDeallocated(i) => WithStep(Terminated(s).(setupClosed := true), i, Returning)
    case Returned(i) => AfterReturn(s, i)
    case ExchangeFailed(i, category, origin, phase, transmission, setup) =>
      WithStep(Terminated(s).(setupClosed := s.setupClosed || setup), i,
               Failing(Context(category, origin, phase, transmission, s.authenticated)))
    case ExchangeThrows(i) => Throw(s, i, s.operations[i].step.context, Transport).(busy := false)
    case DecodeLogon(i, outcome) => AfterDecodeLogon(s, i, outcome)
    case Decode(i, outcome) => AfterDecode(s, i, outcome)
    case DecodeValue(i, ok) =>
      if ok then EndOperation(s, i)
      else WithStep(Terminated(s), i, Throwing(Context(MalformedProtocol, Codec, ValueDecode, Complete, s.authenticated)))
    case StartRefresh(i, encodes) => BeginExchange(s, i, Refresh, encodes)
    case ThrowNow(i) => Throw(s, i, s.operations[i].step.context, Value)
    case Close => AfterClose(s)
  }

  // ---------------------------------------------------------------- what is claimed of an error

  predicate IsOpen(t: Thrown) {
    !t.closed && !t.setupClosed
  }

  predicate SaysReusable(t: Thrown) {
    DispositionOf(t.context) == Reusable
  }

  /**
   * Two places throw an error that says Reusable without a look at whether the session is closed:
   * the availability check of a reset, and the decoding of a declared exception while the
   * conversation itself still stands. This error was thrown there by a closed session.
   */
  predicate ThrownUnaware(t: Thrown) {
    t.closed && (t.site == ResetAvailability || (t.context.category == AbapException && !t.setupClosed))
  }

  /** The error and the session agree, save exactly in that case. */
  predicate AgreesSave(t: Thrown) {
    && ((SaysReusable(t) <==> IsOpen(t)) <==> !ThrownUnaware(t))
    && (!SaysReusable(t) ==> t.closed)
  }

  // ---------------------------------------------------------------- the invariant

  predicate IsActive(o: Operation) {
    o.step != Ended
  }

  predicate InExchange(o: Operation) {
    o.step == Exchanging || o.step == Returning || o.step.Failing?
  }

  predicate OperationSound(s: State, i: nat, o: Operation) {
    && (InExchange(o) ==> s.busy)
    && (o.step == Returning ==> s.closed && s.setupClosed)
    && (o.step.Failing? ==> s.closed && TransportCategory(o.step.context.category))
    && (o.step.Throwing? ==>
          s.closed && DispositionOf(o.step.context) != Reusable && (o.step.context.category == AbapException ==> s.setupClosed))
    && (o.step == Decoding ==> o.kind != Raw)
    && (IsActive(o) && (o.kind == Regular || o.kind == Reset || o.kind == Refresh) ==> s.authenticated)
    && (IsActive(o) && (o.kind == Reset || o.kind == Refresh) ==> s.owner == Some(i))
    && (o.step == Refreshing ==> o.kind == Reset)
    && (o.step == Valuing ==> o.kind == Regular)
  }

  /** Two operations are never in an exchange at once. */
  ghost predicate OneExchange(s: State) {
    forall i, j :: 0 <= i < j < |s.operations| && InExchange(s.operations[i]) ==> !InExchange(s.operations[j])
  }

  predicate Holder(s: State, i: nat) {
    i < |s.operations| && IsActive(s.operations[i]) && (s.operations[i].kind == Reset || s.operations[i].kind == Refresh)
  }

  /** While a reset is between its two exchanges, the last exchange of the session is its first one. */
  ghost predicate OwnerSound(s: State) {
    s.owner.Some? ==>
      && Holder(s, s.owner.value)
      && (s.operations[s.owner.value].kind == Reset ==>
            s.exchanges != [] && s.exchanges[|s.exchanges| - 1] == Exchange(s.owner.value, Reset))
  }

  ghost predicate ExchangesPaired(exchanges: seq<Exchange>) {
    forall k :: 0 <= k < |exchanges| && exchanges[k].kind == Refresh ==>
      0 < k && exchanges[k - 1] == Exchange(exchanges[k].operation, Reset)
  }

  ghost predicate Invariant(s: State) {
    && (s.setupClosed ==> s.closed)
    && (s.sessionId ==> s.authenticated)
    && (forall i :: 0 <= i < |s.operations| ==> OperationSound(s, i, s.operations[i]))
    && OneExchange(s) && OwnerSound(s) && ExchangesPaired(s.exchanges)
    && (forall k :: 0 <= k < |s.thrown| ==> AgreesSave(s.thrown[k]))
  }

  // ---------------------------------------------------------------- every step keeps it

  /** One operation changes its step; the flags only move towards closed. */
  lemma {:induction false} StepChangeKeepsInvariant(s: State, i: nat, step: Step, after: State)
    requires Invariant(s) && i < |s.operations|
    requires after == WithStep(s, i, step).(closed := after.closed, setupClosed := after.setupClosed, sessionId := after.sessionId,
                                            authenticated := after.authenticated, busy := after.busy)
    requires (s.closed ==> after.closed) && (s.setupClosed ==> after.setupClosed) && (after.setupClosed ==> after.closed)
    requires (s.authenticated ==> after.authenticated) && (after.sessionId ==> after.authenticated)
    requires OperationSound(after, i, s.operations[i].(step := step))
    requires after.busy || InExchange(s.operations[i]) || (after.busy == s.busy)
    requires InExchange(s.operations[i].(step := step)) ==> InExchange(s.operations[i])
    requires IsActive(s.operations[i].(step := step)) || s.owner != Some(i)
    ensures Invariant(after)
  {
    forall j | 0 <= j < |after.operations| ensures OperationSound(after, j, after.operations[j]) {
      assert OperationSound(s, j, s.operations[j]);
    }
  }

  lemma {:induction false} ThrowKeepsInvariant(s: State, i: nat, context: Context, site: Site, busy: bool)
    requires Invariant(s) && i < |s.operations|
    requires busy || InExchange(s.operations[i]) || (busy == s.busy && !InExchange(s.operations[i]))
    requires AgreesSave(Thrown(context, site, s.closed, s.setupClosed))
    ensures Invariant(Throw(s, i, context, site).(busy := busy))
  {
    var after := Throw(s, i, context, site).(busy := busy);
    forall j | 0 <= j < |after.operations| ensures OperationSound(after, j, after.operations[j]) {
      assert OperationSound(s, j, s.operations[j]);
    }
  }

  lemma {:induction false} EndKeepsInvariant(s: State, i: nat)
    requires Invariant(s) && i < |s.operations| && !InExchange(s.operations[i])
    ensures Invariant(EndOperation(s, i))
  {
    var after := EndOperation(s, i);
    forall j | 0 <= j < |after.operations| ensures OperationSound(after, j, after.operations[j]) {
      assert OperationSound(s, j, s.operations[j]);
    }
  }

  lemma {:induction false} SendingKeepsInvariant(s: State, i: nat, kind: Kind)
    requires Invariant(s) && i < |s.operations| && !s.busy && !s.closed
    requires kind == Refresh || !IsActive(s.operations[i])
    requires kind == Reset || kind == Refresh || kind == Regular ==> s.authenticated
    requires
      if kind == Refresh then s.owner == Some(i) && s.operations[i].kind == Reset && IsActive(s.operations[i]) else s.owner == None
    ensures Invariant(Sending(s.(owner := if kind == Reset then Some(i) else s.owner), i, kind))
  {
    var after := Sending(s.(owner := if kind == Reset then Some(i) else s.owner), i, kind);
    forall j | 0 <= j < |after.operations| ensures OperationSound(after, j, after.operations[j]) {
      assert OperationSound(s, j, s.operations[j]);
    }
    forall j | 0 <= j < |s.operations| ensures !InExchange(s.operations[j]) {
      assert OperationSound(s, j, s.operations[j]);
    }
  }

  lemma {:induction false} AdmissionKeepsInvariant(s: State, kind: Kind)
    requires Invariant(s)
    ensures Invariant(s.(operations := s.operations + [Operation(kind, Ended)]))
  {
    var after := s.(operations := s.operations + [Operation(kind, Ended)]);
    forall j | 0 <= j < |after.operations| ensures OperationSound(after, j, after.operations[j]) {
      if j < |s.operations| {
        assert OperationSound(s, j, s.operations[j]);
      }
    }
  }

  /** Errors of the head of an exchange are thrown by an open session and say it stays reusable. */
  lemma {:induction false} HeadErrorsAgree(s: State)
    requires !s.closed && !s.setupClosed
    ensures AgreesSave(Thrown(ConcurrentCall(s), Availability, s.closed, s.setupClosed))
    ensures AgreesSave(Thrown(Context(Serialization, Codec, Encode, NotStarted, s.authenticated), Encoding, s.closed, s.setupClosed))
  {}

  lemma {:induction false} StartKeepsInvariant(s: State, kind: Kind, encodes: bool)
    requires Invariant(s) && Enabled(s, Start(kind, encodes))
    ensures Invariant(Next(s, Start(kind, encodes)))
  {
    var i := |s.operations|;
    var admitted := s.(operations := s.operations + [Operation(kind, Ended)]);
    AdmissionKeepsInvariant(s, kind);
    if s.closed {
      EndKeepsInvariant(admitted, i);
    } else {
      HeadErrorsAgree(admitted);
      ThrowKeepsInvariant(admitted, i, ConcurrentCall(admitted), Availability, admitted.busy);
      ThrowKeepsInvariant(admitted, i, Context(Serialization, Codec, Encode, NotStarted, s.authenticated), Encoding, admitted.busy);
      if !Unavailable(admitted, i) && (kind == Regular ==> s.authenticated) {
        assert s.owner != Some(i);
        SendingKeepsInvariant(admitted, i, kind);
      }
    }
  }

  lemma {:induction false} StartResetKeepsInvariant(s: State, encodes: bool)
    requires Invariant(s)
    ensures Invariant(AfterStartReset(s, encodes))
  {
    var i := |s.operations|;
    var admitted := s.(operations := s.operations + [Operation(Reset, Ended)]);
    AdmissionKeepsInvariant(s, Reset);
    if s.authenticated && s.sessionId {
      if s.busy || s.owner.Some? {
        ThrowKeepsInvariant(admitted, i, ConcurrentCall(s), ResetAvailability, s.busy);
      } else if s.closed {
        EndKeepsInvariant(admitted, i);
        assert AfterStartReset(s, encodes) == EndOperation(admitted, i);
      } else if !encodes {
        HeadErrorsAgree(admitted);
        var context := Context(Serialization, Codec, Encode, NotStarted, s.authenticated);
        ThrowKeepsInvariant(admitted, i, context, Encoding, s.busy);
        assert AfterStartReset(s, encodes) == Throw(admitted, i, context, Encoding);
      } else {
        SendingKeepsInvariant(admitted, i, Reset);
      }
    }
  }

  lemma {:induction false} StartRefreshKeepsInvariant(s: State, i: nat, encodes: bool)
    requires Invariant(s) && Enabled(s, StartRefresh(i, encodes))
    ensures Invariant(Next(s, StartRefresh(i, encodes)))
  {
    assert OperationSound(s, i, s.operations[i]);
    if s.closed {
      EndKeepsInvariant(s, i);
    } else {
      HeadErrorsAgree(s);
      ThrowKeepsInvariant(s, i, ConcurrentCall(s), Availability, s.busy);
      ThrowKeepsInvariant(s, i, Context(Serialization, Codec, Encode, NotStarted, s.authenticated), Encoding, s.busy);
      if !Unavailable(s, i) {
        SendingKeepsInvariant(s, i, Refresh);
      }
    }
  }

  predicate TransportEvent(e: Event) {
    e.Replied? || e.RepliedAndDeallocated? || e.Returned? || e.ExchangeFailed?
  }

  lemma {:induction false} TransportStepKeepsInvariant(s: State, e: Event)
    requires Invariant(s) && Enabled(s, e) && TransportEvent(e)
    ensures Invariant(Next(s, e))
  {
    var i := e.i;
    assert OperationSound(s, i, s.operations[i]);
    var after := Next(s, e);
    StepChangeKeepsInvariant(s, i, after.operations[i].step, after);
  }

  lemma {:induction false} DecodeLogonKeepsInvariant(s: State, i: nat, outcome: Outcome)
    requires Invariant(s) && Enabled(s, DecodeLogon(i, outcome))
    ensures Invariant(Next(s, DecodeLogon(i, outcome)))
  {
    assert OperationSound(s, i, s.operations[i]);
    var after := Next(s, DecodeLogon(i, outcome));
    StepChangeKeepsInvariant(s, i, after.operations[i].step, after);
  }

  lemma {:induction false} DecodeKeepsInvariant(s: State, i: nat, outcome: Outcome)
    requires Invariant(s) && Enabled(s, Decode(i, outcome))
    ensures Invariant(Next(s, Decode(i, outcome)))
  {
    assert OperationSound(s, i, s.operations[i]);
    if outcome == Success {
      DecodedSuccessKeepsInvariant(s, i);
    } else if outcome == Malformed {
      var after := Next(s, Decode(i, outcome));
      StepChangeKeepsInvariant(s, i, after.operations[i].step, after);
    } else {
      DecodedErrorKeepsInvariant(s, i, outcome);
    }
  }

  lemma {:induction false} DecodedSuccessKeepsInvariant(s: State, i: nat)
    requires Invariant(s) && Enabled(s, Decode(i, Success)) && OperationSound(s, i, s.operations[i])
    ensures Invariant(AfterDecode(s, i, Success))
  {
    if s.setupClosed {
      ThrowKeepsInvariant(s, i, Context(Communication, Appc, EnvelopeDecode, Complete, s.authenticated), Envelope, s.busy);
    } else if s.operations[i].kind == Refresh {
      EndKeepsInvariant(s, i);
    } else {
      var after := AfterDecode(s, i, Success);
      StepChangeKeepsInvariant(s, i, after.operations[i].step, after);
    }
  }

  lemma {:induction false} DecodedErrorKeepsInvariant(s: State, i: nat, outcome: Outcome)
    requires Invariant(s) && Enabled(s, Decode(i, outcome)) && OperationSound(s, i, s.operations[i])
    requires outcome != Success && outcome != Malformed
    ensures Invariant(AfterDecode(s, i, outcome))
  {
    var context := Context(RemoteCategory(outcome), if s.setupClosed then Appc else Sap, EnvelopeDecode, Complete, s.authenticated);
    if DispositionOf(context) == Reusable {
      ThrowKeepsInvariant(s, i, context, Envelope, s.busy);
    } else {
      var after := AfterDecode(s, i, outcome);
      StepChangeKeepsInvariant(s, i, Throwing(context), after);
    }
  }

  lemma {:induction false} DecodeValueKeepsInvariant(s: State, i: nat, ok: bool)
    requires Invariant(s) && Enabled(s, DecodeValue(i, ok))
    ensures Invariant(Next(s, DecodeValue(i, ok)))
  {
    assert OperationSound(s, i, s.operations[i]);
    if ok {
      EndKeepsInvariant(s, i);
    } else {
      var after := Next(s, DecodeValue(i, ok));
      StepChangeKeepsInvariant(s, i, after.operations[i].step, after);
    }
  }

  lemma {:induction false} ThrowStepKeepsInvariant(s: State, e: Event)
    requires Invariant(s) && Enabled(s, e) && (e.ExchangeThrows? || e.ThrowNow?)
    ensures Invariant(Next(s, e))
  {
    var i := e.i;
    assert OperationSound(s, i, s.operations[i]);
    ThrowKeepsInvariant(s, i, s.operations[i].step.context, if e.ExchangeThrows? then Transport else Value,
                        if e.ExchangeThrows? then false else s.busy);
  }

  lemma {:induction false} CloseKeepsInvariant(s: State)
    requires Invariant(s)
    ensures Invariant(AfterClose(s))
  {
    var after := AfterClose(s);
    forall j | 0 <= j < |after.operations| ensures OperationSound(after, j, after.operations[j]) {
      assert OperationSound(s, j, s.operations[j]);
    }
  }

  lemma {:induction false} StepKeepsInvariant(s: State, e: Event)
    requires Invariant(s) && Enabled(s, e)
    ensures Invariant(Next(s, e))
  {
    match e
    case Start(kind, encodes) => StartKeepsInvariant(s, kind, encodes);
    case StartReset(encodes) => StartResetKeepsInvariant(s, encodes);
    case StartRefresh(i, encodes) => StartRefreshKeepsInvariant(s, i, encodes);
    case DecodeLogon(i, outcome) => DecodeLogonKeepsInvariant(s, i, outcome);
    case Decode(i, outcome) => DecodeKeepsInvariant(s, i, outcome);
    case DecodeValue(i, ok) => DecodeValueKeepsInvariant(s, i, ok);
    case Close => CloseKeepsInvariant(s);
    case _ =>
      if TransportEvent(e) {
        TransportStepKeepsInvariant(s, e);
      } else {
        ThrowStepKeepsInvariant(s, e);
      }
  }

  // ---------------------------------------------------------------- runs

  ghost predicate Run(s: State, events: seq<Event>)
    decreases |events|
  {
    events == [] || (Enabled(s, events[0]) && Run(Next(s, events[0]), events[1..]))
  }

  ghost function After(s: State, events: seq<Event>): State
    requires Run(s, events)
    decreases |events|
  {
    if events == [] then s else After(Next(s, events[0]), events[1..])
  }

  lemma {:induction false} RunKeepsInvariant(s: State, events: seq<Event>)
    requires Invariant(s) && Run(s, events)
    ensures Invariant(After(s, events))
    decreases |events|
  {
    if events != [] {
      StepKeepsInvariant(s, events[0]);
      RunKeepsInvariant(Next(s, events[0]), events[1..]);
    }
  }

  lemma {:induction false} InitialInvariant(s: State)
    requires IsInitial(s)
    ensures Invariant(s)
  {}

  /** A refresh always follows its own reset directly: no foreign exchange runs in between. */
  lemma {:induction false} RefreshFollowsItsReset(start: State, events: seq<Event>, k: nat)
    requires IsInitial(start) && Run(start, events)
    requires k < |After(start, events).exchanges| && After(start, events).exchanges[k].kind == Refresh
    ensures
      var exchanges := After(start, events).exchanges;
      0 < k && exchanges[k - 1] == Exchange(exchanges[k].operation, Reset)
  {
    InitialInvariant(start);
    RunKeepsInvariant(start, events);
  }

  // ---------------------------------------------------------------- callers that take turns

  ghost predicate Quiet(s: State) {
    !s.busy && forall i :: 0 <= i < |s.operations| ==> !IsActive(s.operations[i])
  }

  /** A caller takes turns: it starts or closes only when nothing is under way. */
  ghost predicate TakesTurns(s: State, e: Event) {
    e.Start? || e.StartReset? || e.Close? ==> Quiet(s)
  }

  ghost predicate RunInTurns(s: State, events: seq<Event>)
    decreases |events|
  {
    events == [] || (Enabled(s, events[0]) && TakesTurns(s, events[0]) && RunInTurns(Next(s, events[0]), events[1..]))
  }

  ghost predicate OnlyActive(s: State, i: nat) {
    && i < |s.operations| && (s.busy <==> InExchange(s.operations[i]))
    && (forall j :: 0 <= j < |s.operations| && j != i ==> !IsActive(s.operations[j]))
    && (s.closed ==> s.setupClosed || s.operations[i].step.Failing? || s.operations[i].step.Throwing?)
  }

  ghost predicate InTurn(s: State) {
    && (Quiet(s) || exists i :: OnlyActive(s, i))
    && forall k :: 0 <= k < |s.thrown| ==> !ThrownUnaware(s.thrown[k])
  }

  lemma {:induction false} QuietStep(s: State, e: Event)
    requires Invariant(s) && InTurn(s) && Quiet(s) && Enabled(s, e)
    ensures InTurn(Next(s, e))
  {
    assert e.Start? || e.StartReset? || e.Close?;
    if !e.Close? {
      assert Quiet(Next(s, e)) || OnlyActive(Next(s, e), |s.operations|);
    }
  }

  lemma {:induction false} ActiveStep(s: State, e: Event, i: nat)
    requires Invariant(s) && InTurn(s) && OnlyActive(s, i) && !Quiet(s) && Enabled(s, e) && TakesTurns(s, e)
    ensures InTurn(Next(s, e))
  {
    assert OperationSound(s, i, s.operations[i]);
    if TransportEvent(e) || e.ExchangeThrows? || e.ThrowNow? {
      ActiveTransportStep(s, e, i);
    } else if e.Decode? {
      ActiveDecodeStep(s, e, i);
    } else {
      ActiveOtherStep(s, e, i);
    }
  }

  lemma {:induction false} ActiveTransportStep(s: State, e: Event, i: nat)
    requires Invariant(s) && InTurn(s) && OnlyActive(s, i) && Enabled(s, e)
    requires TransportEvent(e) || e.ExchangeThrows? || e.ThrowNow?
    ensures InTurn(Next(s, e))
  {
    assert OperationSound(s, i, s.operations[i]);
    assert e.i == i;
    assert Quiet(Next(s, e)) || OnlyActive(Next(s, e), i);
  }

  lemma {:induction false} ActiveDecodeStep(s: State, e: Event, i: nat)
    requires Invariant(s) && InTurn(s) && OnlyActive(s, i) && Enabled(s, e) && e.Decode?
    ensures InTurn(Next(s, e))
  {
    assert OperationSound(s, i, s.operations[i]);
    assert e.i == i;
    assert Quiet(Next(s, e)) || OnlyActive(Next(s, e), i);
  }

  lemma {:induction false} ActiveOtherStep(s: State, e: Event, i: nat)
    requires Invariant(s) && InTurn(s) && OnlyActive(s, i) && Enabled(s, e)
    requires e.DecodeLogon? || e.DecodeValue? || e.StartRefresh?
    ensures InTurn(Next(s, e))
  {
    assert OperationSound(s, i, s.operations[i]);
    assert e.i == i;
    assert Quiet(Next(s, e)) || OnlyActive(Next(s, e), i);
  }

  lemma {:induction false} TurnsKept(s: State, events: seq<Event>)
    requires Invariant(s) && InTurn(s) && RunInTurns(s, events)
    ensures Run(s, events) && InTurn(After(s, events)) && Invariant(After(s, events))
    decreases |events|
  {
    if events != [] {
      if Quiet(s) {
        QuietStep(s, events[0]);
      } else {
        var i :| OnlyActive(s, i);
        ActiveStep(s, events[0], i);
      }
      StepKeepsInvariant(s, events[0]);
      TurnsKept(Next(s, events[0]), events[1..]);
    }
  }

  /** For callers that take turns the error and the session always agree. */
  lemma {:induction false} TurnTakersSeeAgreement(start: State, events: seq<Event>, k: nat)
    requires IsInitial(start) && RunInTurns(start, events)
    ensures Run(start, events)
    ensures k < |After(start, events).thrown| ==>
              (SaysReusable(After(start, events).thrown[k]) <==> IsOpen(After(start, events).thrown[k]))
  {
    InitialInvariant(start);
    TurnsKept(start, events);
  }
}
