/** The mutable CPIC session: its methods are the stretches between two awaits of its operations. */
module DirectCpicSession {
  import opened FailurePolicy
  import opened CpicSession
  import opened Wrappers

  class Session {
    var closed: bool
    var setupClosed: bool
    var authenticated: bool
    var sessionId: bool
    var busy: bool
    var compoundOperationOwner: Option<nat>
    ghost var operations: seq<Operation>
    ghost var exchanges: seq<Exchange>
    ghost var thrown: seq<Thrown>

    ghost function View(): State
      reads this
    {
      State(closed, setupClosed, authenticated, sessionId, busy, compoundOperationOwner, operations, exchanges, thrown)
    }

    constructor ()
      ensures IsInitial(View())
    {
      closed, setupClosed, authenticated, sessionId, busy, compoundOperationOwner := false, false, false, false, false, None;
      operations, exchanges, thrown := [], [], [];
    }

    /** An operation is over; a compound owner gives up its claim. */
    method Finish(i: nat)
      modifies this`operations, this`compoundOperationOwner
      ensures View() == EndOperation(old(View()), i)
    {
      operations := WithStep(View(), i, Ended).operations;
      if compoundOperationOwner == Some(i) {
        compoundOperationOwner := None;
      }
    }

    method ThrowError(i: nat, context: Context, site: Site)
      modifies this`operations, this`compoundOperationOwner, this`thrown
      ensures View() == Throw(old(View()), i, context, site)
    {
      thrown := thrown + [Thrown(context, site, closed, setupClosed)];
      Finish(i);
    }

    method TerminateGeneration()
      modifies this`closed, this`sessionId
      ensures View() == Terminated(old(View()))
    {
      closed, sessionId := true, false;
    }

    /** The head of an exchange: closed, available, encodable, in this order. */
    method StartExchange(i: nat, kind: Kind, encodes: bool) returns (sending: bool)
      requires i < |operations|
      modifies this
      ensures View() == BeginExchange(old(View()), i, kind, encodes)
      ensures sending <==> !old(closed) && !Unavailable(old(View()), i) && encodes
    {
      if closed {
        Finish(i);
        return false;
      }
      if busy || (compoundOperationOwner.Some? && compoundOperationOwner != Some(i)) {
        ThrowError(i, Context(InvalidState, Api, Send, NotStarted, authenticated), Availability);
        return false;
      }
      if !encodes {
        ThrowError(i, Context(Serialization, Codec, Encode, NotStarted, authenticated), Encoding);
        return false;
      }
      busy := true;
      operations := operations[i := Operation(kind, Exchanging)];
      exchanges := exchanges + [Exchange(i, kind)];
      return true;
    }

    method StartOperation(i: nat, kind: Kind, encodes: bool) returns (sending: bool)
      requires Enabled(View(), Start(kind, encodes)) && i == |operations|
      modifies this
      ensures View() == Next(old(View()), Start(kind, encodes))
    {
      operations := operations + [Operation(kind, Ended)];
      if (kind == LogonAndPing && authenticated) || (kind == Regular && !(authenticated && sessionId)) {
        return false;
      }
      sending := StartExchange(i, kind, encodes);
    }

    method ResetServerContext(i: nat, encodes: bool) returns (sending: bool)
      requires i == |operations|
      modifies this
      ensures View() == Next(old(View()), StartReset(encodes))
    {
      operations := operations + [Operation(Reset, Ended)];
      if !authenticated || !sessionId {
        return false;
      }
      if busy || compoundOperationOwner.Some? {
        ThrowError(i, Context(InvalidState, Api, Send, NotStarted, authenticated), ResetAvailability);
        return false;
      }
      compoundOperationOwner := Some(i);
      sending := StartExchange(i, Reset, encodes);
    }

    /** Between reset and refresh the claim of the compound operation still stands. */
    method RefreshSession(i: nat, encodes: bool) returns (sending: bool)
      requires Enabled(View(), StartRefresh(i, encodes))
      modifies this
      ensures View() == Next(old(View()), StartRefresh(i, encodes))
    {
      sending := StartExchange(i, Refresh, encodes);
    }

    /** A complete reply arrived; with a normal deallocation the generation ends before the reply is used. */
    method ReplyArrived(i: nat, deallocated: bool)
      requires Enabled(View(), if deallocated then RepliedAndDeallocated(i) else Replied(i))
      modifies this
      ensures View() == Next(old(View()), if deallocated then RepliedAndDeallocated(i) else Replied(i))
    {
      if deallocated {
        setupClosed := true;
        TerminateGeneration();
        operations := WithStep(View(), i, Returning).operations;
      } else {
        operations := WithStep(View(), i, if operations[i].kind == Raw then Ended else Decoding).operations;
        busy := false;
      }
    }

    method ExchangeDidFail(i: nat, category: Category, origin: Origin, phase: Phase, transmission: Transmission, setup: bool)
      requires Enabled(View(), ExchangeFailed(i, category, origin, phase, transmission, setup))
      modifies this
      ensures View() == Next(old(View()), ExchangeFailed(i, category, origin, phase, transmission, setup))
    {
      if setup {
        setupClosed := true;
      }
      TerminateGeneration();
      operations := WithStep(View(), i, Failing(Context(category, origin, phase, transmission, authenticated))).operations;
    }

    /** Decode the envelope of a reply, ending the generation where the policy does not call it reusable. */
    method DecodeRegularResponse(i: nat, kind: Kind, outcome: Outcome)
      requires Enabled(View(), Decode(i, outcome)) && kind == operations[i].kind
      modifies this
      ensures View() == Next(old(View()), Decode(i, outcome))
    {
      var terminalTransport := setupClosed;
      if outcome == Malformed {
        TerminateGeneration();
        operations := WithStep(View(), i, Throwing(Context(MalformedProtocol, Cpic, EnvelopeDecode, Complete, authenticated))).operations;
        return;
      }
      if outcome != Success {
        var context :=
          Context(RemoteCategory(outcome), if terminalTransport then Appc else Sap, EnvelopeDecode, Complete, authenticated);
        if Resolve(context).disposition != Reusable {
          TerminateGeneration();
          operations := WithStep(View(), i, Throwing(context)).operations;
        } else {
          ThrowError(i, context, Envelope);
        }
        return;
      }
      if terminalTransport {
        ThrowError(i, Context(Communication, Appc, EnvelopeDecode, Complete, authenticated), Envelope);
      } else if kind == Refresh {
        Finish(i);
      } else {
        operations := WithStep(View(), i, if kind == Reset then Refreshing else Valuing).operations;
      }
    }

    method CloseSession() returns (refused: bool)
      modifies this
      ensures View() == Next(old(View()), CpicSession.Close)
      ensures refused <==> !old(closed) && (old(busy) || old(compoundOperationOwner).Some?)
    {
      if closed {
        return false;
      }
      if busy || compoundOperationOwner.Some? {
        return true;
      }
      TerminateGeneration();
      setupClosed := true;
      return false;
    }
  }
}
