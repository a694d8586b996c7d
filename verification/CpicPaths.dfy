/**
 * What the operations of a CPIC session come to, step after step from any session at rest: what is
 * sent, which error is thrown for which reply or failure, and whether the session survives it.
 */
module CpicPaths {
  import opened FailurePolicy
  import opened Wrappers
  import opened CpicSession

  /** The events are possible one after another and lead to the state. */
  predicate Leads(s: State, events: seq<Event>, t: State)
    decreases |events|
  {
    if events == [] then s == t else Enabled(s, events[0]) && Leads(Next(s, events[0]), events[1..], t)
  }

  lemma {:induction false} LeadsIsRun(s: State, events: seq<Event>, t: State)
    ensures Leads(s, events, t) <==> Run(s, events) && After(s, events) == t
    decreases |events|
  {
    if events != [] && Enabled(s, events[0]) {
      LeadsIsRun(Next(s, events[0]), events[1..], t);
    }
  }

  predicate Follows(s: State, e: Event, t: State) {
    Enabled(s, e) && Next(s, e) == t
  }

  /** Steps from state to state, one after another. */
  lemma {:induction false} Chain(states: seq<State>, events: seq<Event>)
    requires |states| == |events| + 1
    requires forall n {:trigger events[n]} :: 0 <= n < |events| ==> Follows(states[n], events[n], states[n + 1])
    ensures Leads(states[0], events, states[|events|])
    decreases |events|
  {
    if events != [] {
      assert Follows(states[0], events[0], states[1]);
      forall n | 0 <= n < |events[1..]| ensures Follows(states[1..][n], events[1..][n], states[1..][n + 1]) {
        assert Follows(states[n + 1], events[n + 1], states[n + 2]);
      }
      Chain(states[1..], events[1..]);
    }
  }

  // ---------------------------------------------------------------- sessions at rest

  /** Open, and nothing is under way. */
  predicate IsFree(s: State) {
    !s.closed && !s.setupClosed && !s.busy && s.owner == None
  }

  predicate IsReady(s: State) {
    IsFree(s) && s.authenticated && s.sessionId
  }

  /** One more operation, at this step. */
  function With(s: State, kind: Kind, step: Step): State {
    s.(operations := s.operations + [Operation(kind, step)])
  }

  /** One more operation, its request sent. */
  function Sent(s: State, kind: Kind, step: Step): State {
    With(s, kind, step).(exchanges := s.exchanges + [Exchange(|s.operations|, kind)])
  }

  function Throws(s: State, context: Context, site: Site): State {
    s.(thrown := s.thrown + [Thrown(context, site, s.closed, s.setupClosed)])
  }

  /** The session has ended: closed, without a session id. */
  function Over(s: State): State {
    s.(closed := true, sessionId := false)
  }

  /** The conversation has ended as well. */
  function Hung(s: State): State {
    Over(s).(setupClosed := true)
  }

  // ---------------------------------------------------------------- what is turned away

  /** While an operation is under way, others are told so, and nothing is sent. */
  lemma {:induction false} BusySessionRefuses(s: State, kind: Kind, encodes: bool)
    requires IsReady(s.(busy := false, owner := None)) && (s.busy || s.owner.Some?) && (s.owner.Some? ==> s.owner.value < |s.operations|)
    requires kind == Regular || kind == Raw
    ensures
      var context := Context(InvalidState, Api, Send, NotStarted, true);
      && Follows(s, Start(kind, encodes), Throws(With(s, kind, Ended), context, Availability))
      && Follows(s, StartReset(encodes), Throws(With(s, Reset, Ended), context, ResetAvailability))
  {}

  /** A request that cannot be encoded is not sent; the session stays as it was. */
  lemma {:induction false} UnencodableIsNotSent(s: State, kind: Kind)
    requires IsReady(s) && (kind == Regular || kind == Raw)
    ensures
      var context := Context(Serialization, Codec, Encode, NotStarted, true);
      && Follows(s, Start(kind, false), Throws(With(s, kind, Ended), context, Encoding))
      && Follows(s, StartReset(false), Throws(With(s, Reset, Ended), context, Encoding))
  {}

  /** Without a session there are no calls and no resets, a second logon is refused, and after the end nothing is sent. */
  lemma {:induction false} NothingWithoutSession(s: State, encodes: bool)
    ensures !s.authenticated || !s.sessionId ==> Follows(s, Start(Regular, encodes), With(s, Regular, Ended))
    ensures !s.authenticated || !s.sessionId ==> Follows(s, StartReset(encodes), With(s, Reset, Ended))
    ensures s.authenticated ==> Follows(s, Start(LogonAndPing, encodes), With(s, LogonAndPing, Ended))
    ensures s.closed && s.owner != Some(|s.operations|) ==>
              forall kind :: kind in {LogonAndPing, Regular, Raw} ==> Follows(s, Start(kind, encodes), With(s, kind, Ended))
  {}

  /** A close ends a session at rest, conversation and all, and leaves any other as it is. */
  lemma {:induction false} CloseEndsRestingSession(s: State)
    ensures Follows(s, Event.Close, if s.closed || s.busy || s.owner.Some? then s else Hung(s))
  {}

  // ---------------------------------------------------------------- logon

  /** A session not yet logged on. */
  predicate IsFresh(s: State) {
    IsFree(s) && !s.authenticated && !s.sessionId
  }

  lemma {:induction false} LogonIsSent(s: State)
    requires IsFresh(s)
    ensures Follows(s, Start(LogonAndPing, true), Sent(s, LogonAndPing, Exchanging).(busy := true))
    ensures Follows(Sent(s, LogonAndPing, Exchanging).(busy := true), Replied(|s.operations|), Sent(s, LogonAndPing, Decoding))
  {}

  lemma {:induction false} LogonSucceeds(s: State)
    requires IsFresh(s)
    ensures Leads(s, [Start(LogonAndPing, true), Replied(|s.operations|), DecodeLogon(|s.operations|, Success)],
                  Sent(s, LogonAndPing, Ended).(authenticated := true, sessionId := true))
  {
    LogonIsSent(s);
    Chain([s, Sent(s, LogonAndPing, Exchanging).(busy := true), Sent(s, LogonAndPing, Decoding),
           Sent(s, LogonAndPing, Ended).(authenticated := true, sessionId := true)],
          [Start(LogonAndPing, true), Replied(|s.operations|), DecodeLogon(|s.operations|, Success)]);
  }

  /** Any other reply ends the session, and the error says that no connection was established. */
  lemma {:induction false} LogonFails(s: State, outcome: Outcome)
    requires IsFresh(s) && outcome != Success
    ensures
      var i := |s.operations|;
      var context := if outcome == Malformed then Context(MalformedProtocol, Cpic, LogonPhase, Complete, false)
                     else Context(Logon, Sap, LogonPhase, Complete, false);
      Leads(s, [Start(LogonAndPing, true), Replied(i), DecodeLogon(i, outcome), ThrowNow(i)],
            Throws(Over(Sent(s, LogonAndPing, Ended)), context, Value))
  {
    var i := |s.operations|;
    var context := if outcome == Malformed then Context(MalformedProtocol, Cpic, LogonPhase, Complete, false)
      else Context(Logon, Sap, LogonPhase, Complete, false);
    LogonIsSent(s);
    Chain([s, Sent(s, LogonAndPing, Exchanging).(busy := true), Sent(s, LogonAndPing, Decoding),
           Over(Sent(s, LogonAndPing, Throwing(context))), Throws(Over(Sent(s, LogonAndPing, Ended)), context, Value)],
          [Start(LogonAndPing, true), Replied(i), DecodeLogon(i, outcome), ThrowNow(i)]);
  }

  // ---------------------------------------------------------------- calls

  lemma {:induction false} CallIsSent(s: State, kind: Kind)
    requires IsReady(s) && (kind == Regular || kind == Raw)
    ensures Follows(s, Start(kind, true), Sent(s, kind, Exchanging).(busy := true))
  {}

  lemma {:induction false} CallReplied(s: State)
    requires IsReady(s)
    ensures Follows(Sent(s, Regular, Exchanging).(busy := true), Replied(|s.operations|), Sent(s, Regular, Decoding))
  {}

  /** A call that is answered leaves the session as it was. */
  lemma {:induction false} CallSucceeds(s: State)
    requires IsReady(s)
    ensures
      var i := |s.operations|;
      && Leads(s, [Start(Regular, true), Replied(i), Decode(i, Success), DecodeValue(i, true)], Sent(s, Regular, Ended))
      && Leads(s, [Start(Raw, true), Replied(i)], Sent(s, Raw, Ended))
  {
    var i := |s.operations|;
    CallIsSent(s, Regular);
    CallIsSent(s, Raw);
    CallReplied(s);
    Chain([s, Sent(s, Regular, Exchanging).(busy := true), Sent(s, Regular, Decoding), Sent(s, Regular, Valuing), Sent(s, Regular, Ended)],
          [Start(Regular, true), Replied(i), Decode(i, Success), DecodeValue(i, true)]);
    Chain([s, Sent(s, Raw, Exchanging).(busy := true), Sent(s, Raw, Ended)], [Start(Raw, true), Replied(i)]);
  }

  /** A declared exception is thrown as such, and the session goes on. */
  lemma {:induction false} DeclaredExceptionIsThrown(s: State)
    requires IsReady(s)
    ensures
      var i := |s.operations|;
      Leads(s, [Start(Regular, true), Replied(i), Decode(i, DeclaredException)],
            Throws(Sent(s, Regular, Ended), Context(AbapException, Sap, EnvelopeDecode, Complete, true), Envelope))
  {
    var i := |s.operations|;
    CallIsSent(s, Regular);
    CallReplied(s);
    Chain([s, Sent(s, Regular, Exchanging).(busy := true), Sent(s, Regular, Decoding),
           Throws(Sent(s, Regular, Ended), Context(AbapException, Sap, EnvelopeDecode, Complete, true), Envelope)],
          [Start(Regular, true), Replied(i), Decode(i, DeclaredException)]);
  }

  /** The category of a remote error that ends the session. */
  function FatalCategory(outcome: Outcome): Category {
    if outcome == RuntimeError then AbapRuntime else if outcome == Message then AbapMessage else MalformedProtocol
  }

  /** Every other error in the reply ends the session first and is thrown then. */
  lemma {:induction false} OtherErrorsEndSession(s: State, outcome: Outcome)
    requires IsReady(s) && outcome != Success && outcome != DeclaredException
    ensures
      var i := |s.operations|;
      var context := Context(FatalCategory(outcome), if outcome == Malformed then Cpic else Sap, EnvelopeDecode, Complete, true);
      Leads(s, [Start(Regular, true), Replied(i), Decode(i, outcome), ThrowNow(i)], Throws(Over(Sent(s, Regular, Ended)), context, Value))
  {
    var i := |s.operations|;
    var context := Context(FatalCategory(outcome), if outcome == Malformed then Cpic else Sap, EnvelopeDecode, Complete, true);
    CallIsSent(s, Regular);
    CallReplied(s);
    Chain([s, Sent(s, Regular, Exchanging).(busy := true), Sent(s, Regular, Decoding), Over(Sent(s, Regular, Throwing(context))),
           Throws(Over(Sent(s, Regular, Ended)), context, Value)],
          [Start(Regular, true), Replied(i), Decode(i, outcome), ThrowNow(i)]);
  }

  /** So does a value that cannot be decoded. */
  lemma {:induction false} UndecodableValueEndsSession(s: State)
    requires IsReady(s)
    ensures
      var i := |s.operations|;
      Leads(s, [Start(Regular, true), Replied(i), Decode(i, Success), DecodeValue(i, false), ThrowNow(i)],
            Throws(Over(Sent(s, Regular, Ended)), Context(MalformedProtocol, Codec, ValueDecode, Complete, true), Value))
  {
    var i := |s.operations|;
    var context := Context(MalformedProtocol, Codec, ValueDecode, Complete, true);
    CallIsSent(s, Regular);
    CallReplied(s);
    Chain([s, Sent(s, Regular, Exchanging).(busy := true), Sent(s, Regular, Decoding), Sent(s, Regular, Valuing),
           Over(Sent(s, Regular, Throwing(context))), Throws(Over(Sent(s, Regular, Ended)), context, Value)],
          [Start(Regular, true), Replied(i), Decode(i, Success), DecodeValue(i, false), ThrowNow(i)]);
  }

  lemma {:induction false} ReplyHangsUp(s: State)
    requires IsReady(s)
    ensures Follows(Sent(s, Regular, Exchanging).(busy := true), RepliedAndDeallocated(|s.operations|),
                    Hung(Sent(s, Regular, Returning).(busy := true)))
    ensures Follows(Hung(Sent(s, Regular, Returning).(busy := true)), Returned(|s.operations|), Hung(Sent(s, Regular, Decoding)))
  {}

  /** A reply that hangs up is a failure even if the call succeeded: nothing can be called any more. */
  lemma {:induction false} HungUpIsFailure(s: State)
    requires IsReady(s)
    ensures
      var i := |s.operations|;
      Leads(s, [Start(Regular, true), RepliedAndDeallocated(i), Returned(i), Decode(i, Success)],
            Throws(Hung(Sent(s, Regular, Ended)), Context(Communication, Appc, EnvelopeDecode, Complete, true), Envelope))
  {
    var i := |s.operations|;
    CallIsSent(s, Regular);
    ReplyHangsUp(s);
    Chain([s, Sent(s, Regular, Exchanging).(busy := true), Hung(Sent(s, Regular, Returning).(busy := true)), Hung(Sent(s, Regular, Decoding)),
           Throws(Hung(Sent(s, Regular, Ended)), Context(Communication, Appc, EnvelopeDecode, Complete, true), Envelope)],
          [Start(Regular, true), RepliedAndDeallocated(i), Returned(i), Decode(i, Success)]);
  }

  lemma {:induction false} HungUpThrows(s: State, outcome: Outcome)
    requires IsReady(s) && outcome != Success && outcome != Malformed
    ensures
      var context := Context(if outcome == DeclaredException then AbapException else FatalCategory(outcome), Appc, EnvelopeDecode, Complete, true);
      && Follows(Hung(Sent(s, Regular, Decoding)), Decode(|s.operations|, outcome), Hung(Sent(s, Regular, Throwing(context))))
      && Follows(Hung(Sent(s, Regular, Throwing(context))), ThrowNow(|s.operations|), Throws(Hung(Sent(s, Regular, Ended)), context, Value))
  {}

  /** An error that comes with it, declared or not, is put down to the conversation. */
  lemma {:induction false} HungUpErrors(s: State, outcome: Outcome)
    requires IsReady(s) && outcome != Success && outcome != Malformed
    ensures
      var i := |s.operations|;
      var context := Context(if outcome == DeclaredException then AbapException else FatalCategory(outcome), Appc, EnvelopeDecode, Complete, true);
      Leads(s, [Start(Regular, true), RepliedAndDeallocated(i), Returned(i), Decode(i, outcome), ThrowNow(i)],
            Throws(Hung(Sent(s, Regular, Ended)), context, Value))
  {
    var i := |s.operations|;
    var context := Context(if outcome == DeclaredException then AbapException else FatalCategory(outcome), Appc, EnvelopeDecode, Complete, true);
    CallIsSent(s, Regular);
    ReplyHangsUp(s);
    HungUpThrows(s, outcome);
    Chain([s, Sent(s, Regular, Exchanging).(busy := true), Hung(Sent(s, Regular, Returning).(busy := true)), Hung(Sent(s, Regular, Decoding)),
           Hung(Sent(s, Regular, Throwing(context))), Throws(Hung(Sent(s, Regular, Ended)), context, Value)],
          [Start(Regular, true), RepliedAndDeallocated(i), Returned(i), Decode(i, outcome), ThrowNow(i)]);
  }

  /** A failed exchange ends the session, and its error carries what the transport says of the failure. */
  lemma {:induction false} FailedExchangeEndsSession(s: State, kind: Kind, category: Category, origin: Origin, phase: Phase,
      transmission: Transmission, setup: bool)
    requires IsReady(s) && (kind == Regular || kind == Raw) && TransportCategory(category)
    ensures
      var i := |s.operations|;
      Leads(s, [Start(kind, true), ExchangeFailed(i, category, origin, phase, transmission, setup), ExchangeThrows(i)],
            Throws(Over(Sent(s, kind, Ended)).(setupClosed := setup), Context(category, origin, phase, transmission, true), Transport))
  {
    var i := |s.operations|;
    var context := Context(category, origin, phase, transmission, true);
    var t := Over(Sent(s, kind, Failing(context))).(setupClosed := setup, busy := true);
    CallIsSent(s, kind);
    Chain([s, Sent(s, kind, Exchanging).(busy := true), t, Throws(Over(Sent(s, kind, Ended)).(setupClosed := setup), context, Transport)],
          [Start(kind, true), ExchangeFailed(i, category, origin, phase, transmission, setup), ExchangeThrows(i)]);
  }

  // ---------------------------------------------------------------- resets

  /** A reset that holds the session. */
  function Claimed(s: State, step: Step): State {
    Sent(s, Reset, step).(owner := Some(|s.operations|))
  }

  /** Its refresh has been sent as well. */
  function Refreshed(s: State, step: Step): State {
    s.(operations := s.operations + [Operation(Refresh, step)],
       exchanges := s.exchanges + [Exchange(|s.operations|, Reset), Exchange(|s.operations|, Refresh)])
  }

  lemma {:induction false} ResetIsSent(s: State)
    requires IsReady(s)
    ensures Follows(s, StartReset(true), Claimed(s, Exchanging).(busy := true))
    ensures Follows(Claimed(s, Exchanging).(busy := true), Replied(|s.operations|), Claimed(s, Decoding))
    ensures Follows(Claimed(s, Decoding), Decode(|s.operations|, Success), Claimed(s, Refreshing))
  {}

  lemma {:induction false} RefreshIsSent(s: State)
    requires IsReady(s)
    ensures var t := Refreshed(s, Exchanging).(owner := Some(|s.operations|), busy := true);
            && Follows(Claimed(s, Refreshing), StartRefresh(|s.operations|, true), t)
            && Follows(t, Replied(|s.operations|), Refreshed(s, Decoding).(owner := Some(|s.operations|)))
  {
    assert s.exchanges + [Exchange(|s.operations|, Reset)] + [Exchange(|s.operations|, Refresh)] ==
           s.exchanges + [Exchange(|s.operations|, Reset), Exchange(|s.operations|, Refresh)];
  }

  /** A reset sends two requests, the refresh after the reset was answered, and then gives the session back. */
  lemma {:induction false} ResetSucceeds(s: State)
    requires IsReady(s)
    ensures
      var i := |s.operations|;
      Leads(s, [StartReset(true), Replied(i), Decode(i, Success), StartRefresh(i, true), Replied(i), Decode(i, Success)], Refreshed(s, Ended))
  {
    var i := |s.operations|;
    ResetIsSent(s);
    RefreshIsSent(s);
    Chain([s, Claimed(s, Exchanging).(busy := true), Claimed(s, Decoding), Claimed(s, Refreshing),
           Refreshed(s, Exchanging).(owner := Some(i), busy := true), Refreshed(s, Decoding).(owner := Some(i)), Refreshed(s, Ended)],
          [StartReset(true), Replied(i), Decode(i, Success), StartRefresh(i, true), Replied(i), Decode(i, Success)]);
  }

  /** An exception in the first reply, or a refresh that cannot be encoded, gives it back at once. */
  lemma {:induction false} FailedResetGivesSessionBack(s: State)
    requires IsReady(s)
    ensures
      var i := |s.operations|;
      && Leads(s, [StartReset(true), Replied(i), Decode(i, DeclaredException)],
               Throws(Sent(s, Reset, Ended), Context(AbapException, Sap, EnvelopeDecode, Complete, true), Envelope))
      && Leads(s, [StartReset(true), Replied(i), Decode(i, Success), StartRefresh(i, false)],
               Throws(Sent(s, Reset, Ended), Context(Serialization, Codec, Encode, NotStarted, true), Encoding))
  {
    var i := |s.operations|;
    ResetIsSent(s);
    Chain([s, Claimed(s, Exchanging).(busy := true), Claimed(s, Decoding),
           Throws(Sent(s, Reset, Ended), Context(AbapException, Sap, EnvelopeDecode, Complete, true), Envelope)],
          [StartReset(true), Replied(i), Decode(i, DeclaredException)]);
    Chain([s, Claimed(s, Exchanging).(busy := true), Claimed(s, Decoding), Claimed(s, Refreshing),
           Throws(Sent(s, Reset, Ended), Context(Serialization, Codec, Encode, NotStarted, true), Encoding)],
          [StartReset(true), Replied(i), Decode(i, Success), StartRefresh(i, false)]);
  }
}
