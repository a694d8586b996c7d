/** The failure policy: what a failure means for the physical connection it happened on. */
module FailurePolicy {

  datatype Category =
    | InvalidState | InvalidParameter | Conversion | Serialization | Unsupported | Resource
    | Communication | Logon | AbapRuntime | AbapException | AbapMessage | Canceled | Timeout | MalformedProtocol

  datatype Origin = Api | Codec | Ni | Gateway | Appc | Cpic | Sap | MetadataOrigin | Pool

  datatype Phase =
    | Connect | GatewaySetup | AppcSetup | LogonPhase | Metadata | Encode | Send | Receive | EnvelopeDecode | ValueDecode
    | ClosePhase | Replacement

  datatype Transmission = NotStarted | Partial | Complete | Unknown

  datatype Disposition = Reusable | Close | UnknownClose

  datatype Recovery = NoRecovery | Replace

  datatype Context = Context(category: Category, origin: Origin, phase: Phase, transmission: Transmission, established: bool)

  datatype Policy = Policy(disposition: Disposition, recovery: Recovery)

  function DispositionOf(c: Context): Disposition {
    match c.category
    case AbapException =>
      if c.origin == Sap && c.phase == EnvelopeDecode && c.transmission == Complete && c.established then Reusable else UnknownClose
    case MalformedProtocol => UnknownClose
    case InvalidState | InvalidParameter | Conversion | Serialization | Unsupported | Resource =>
      if c.transmission == NotStarted &&
         (c.origin == Api || c.origin == Codec || c.origin == Pool || c.phase == Metadata || c.phase == Encode)
      then Reusable else UnknownClose
    case _ => Close
  }

  function Resolve(c: Context): Policy {
    var disposition := DispositionOf(c);
    Policy(disposition, if c.established && disposition != Reusable then Replace else NoRecovery)
  }

  /** Categories that a call can fail with before anything is sent. */
  predicate Local(c: Category) {
    c.InvalidState? || c.InvalidParameter? || c.Conversion? || c.Serialization? || c.Unsupported? || c.Resource?
  }

  /**
   * A connection stays usable in two cases only: nothing was transmitted and the fault is the
   * caller's side, or the reply was complete and SAP declared an ABAP exception in it. An
   * established connection is replaced exactly when it does not stay usable.
   */
  lemma {:induction false} ReusableMeansSynchronized(c: Context)
    ensures Resolve(c).disposition == Reusable ==>
              (c.transmission == NotStarted && Local(c.category)) || (c.transmission == Complete && c.category == AbapException)
    ensures c.transmission == Partial || c.transmission == Unknown ==> Resolve(c).disposition != Reusable
    ensures c.established ==> (Resolve(c).recovery == Replace <==> Resolve(c).disposition != Reusable)
    ensures !c.established ==> Resolve(c).recovery == NoRecovery
  {}

  /**
   * The three dispositions, each by its cases. What the peer or the transport reports closes the
   * connection; a fault of the caller's side, or an exception out of its place, leaves its state unknown.
   */
  lemma {:induction false} DispositionIff(c: Context)
    ensures
      var callersSide := c.category in {InvalidState, InvalidParameter, Conversion, Serialization, Unsupported, Resource};
      var unsent := c.transmission == NotStarted && (c.origin in {Api, Codec, Origin.Pool} || c.phase in {Metadata, Encode});
      var declared := c.origin == Sap && c.phase == EnvelopeDecode && c.transmission == Complete && c.established;
      && (DispositionOf(c) == Reusable <==> (callersSide && unsent) || (c.category == AbapException && declared))
      && (DispositionOf(c) == Close <==> c.category in {Communication, Logon, AbapRuntime, AbapMessage, Canceled, Timeout})
      && (DispositionOf(c) == UnknownClose <==>
            c.category == MalformedProtocol || (callersSide && !unsent) || (c.category == AbapException && !declared))
  {}
}
