/**
 * The diagnostics dispatcher: a bounded queue in front of a sink whose writes are serialized,
 * with flush waiters and an orderly close. Steps are the stretches between two awaits; the
 * sink may call back into the dispatcher at any point between them.
 */
module Dispatcher {

  const CATEGORIES: nat := 7

  /** Where close() stands. */
  datatype Closing = NotClosing | AwaitFlush | SinkClosing | SinkClosed

  /**
   * handed lists the sequence numbers the sink has seen, in order; waiters holds, for each
   * flush that waits, how many events had been accepted when it was called, and released those
   * that have been answered together with how many writes had settled by then.
   */
  datatype State = State(
    maxQueued: nat,
    levels: seq<nat>,
    queue: seq<nat>,
    inFlight: bool,
    scheduled: bool,
    draining: bool,
    closed: bool,
    closing: Closing,
    validEmits: nat,
    accepted: nat,
    delivered: nat,
    writeFailures: nat,
    closeFailures: nat,
    filtered: nat,
    dropped: nat,
    droppedByCategory: seq<nat>,
    handed: seq<nat>,
    waiters: seq<nat>,
    released: seq<(nat, nat)>)

  ghost predicate IsInitial(s: State) {
    && s.maxQueued >= 1 && |s.levels| == CATEGORIES && s.queue == [] && !s.inFlight && !s.scheduled && !s.draining
    && !s.closed && s.closing == NotClosing && s.validEmits == 0 && s.accepted == 0 && s.delivered == 0
    && s.writeFailures == 0 && s.closeFailures == 0 && s.filtered == 0 && s.dropped == 0
    && |s.droppedByCategory| == CATEGORIES && (forall c :: 0 <= c < CATEGORIES ==> s.droppedByCategory[c] == 0)
    && s.handed == [] && s.waiters == [] && s.released == []
  }

  datatype Event =
    | Emit(category: nat, level: nat)
    | SetLevel(category: nat, level: nat)
    | DrainStarts
    | WriteSettled(ok: bool)
    | Flush
    | Close
    | SinkCloseSettled(ok: bool)

  datatype Verdict = Refused | Filtered | Dropped | Accepted

  function Sum(s: seq<nat>): nat {
    if s == [] then 0 else Sum(s[..|s| - 1]) + s[|s| - 1]
  }

  /** The numbers from + 1 up to and including upTo. */
  function Numbers(from: nat, upTo: nat): (r: seq<nat>)
    requires from <= upTo
    ensures |r| == upTo - from && forall i :: 0 <= i < |r| ==> r[i] == from + 1 + i
  {
    seq(upTo - from, i => from + 1 + i)
  }

  function Settled(s: State): nat {
    s.delivered + s.writeFailures
  }

  function EmitVerdict(s: State, category: nat, level: nat): Verdict
    requires category < CATEGORIES && |s.levels| == CATEGORIES
  {
    if s.closed then Refused
    else if level > s.levels[category] then Filtered
    else if |s.queue| >= s.maxQueued then Dropped
    else Accepted
  }

  function AfterEmit(s: State, category: nat, level: nat): State
    requires category < CATEGORIES && |s.levels| == CATEGORIES && |s.droppedByCategory| == CATEGORIES
  {
    match EmitVerdict(s, category, level)
    case Refused => s
    case Filtered => s.(validEmits := s.validEmits + 1, filtered := s.filtered + 1)
    case Dropped =>
      s.(validEmits := s.validEmits + 1, dropped := s.dropped + 1,
         droppedByCategory := s.droppedByCategory[category := s.droppedByCategory[category] + 1])
    case Accepted =>
      s.(validEmits := s.validEmits + 1, accepted := s.accepted + 1, queue := s.queue + [s.accepted + 1],
         scheduled := s.scheduled || !s.draining)
  }

  function Answers(waiters: seq<nat>, settled: nat): (r: seq<(nat, nat)>)
    ensures |r| == |waiters| && forall i :: 0 <= i < |r| ==> r[i] == (waiters[i], settled)
  {
    seq(|waiters|, i requires 0 <= i < |waiters| => (waiters[i], settled))
  }

  /** The drain takes the next event to the sink, or ends and answers the flush waiters. */
  function Continued(s: State): State {
    if s.queue != [] then
      s.(queue := s.queue[1..], inFlight := true, draining := true, handed := s.handed + [s.queue[0]])
    else
      s.(inFlight := false, draining := false, waiters := [], released := s.released + Answers(s.waiters, Settled(s)),
         closing := if s.closing == AwaitFlush then SinkClosing else s.closing)
  }

  function AfterWrite(s: State, ok: bool): State {
    s.(delivered := s.delivered + (if ok then 1 else 0), writeFailures := s.writeFailures + (if ok then 0 else 1))
  }

  predicate Idle(s: State) {
    !s.scheduled && !s.draining && s.queue == []
  }

  function AfterFlush(s: State): State {
    if Idle(s) then s.(released := s.released + [(s.accepted, Settled(s))]) else s.(waiters := s.waiters + [s.accepted])
  }

  function AfterClose(s: State): State {
    if s.closing != NotClosing then s
    else AfterFlush(s.(closed := true)).(closing := if Idle(s) then SinkClosing else AwaitFlush)
  }

  predicate Enabled(s: State, e: Event) {
    match e
    case Emit(category, _) => category < CATEGORIES && |s.levels| == CATEGORIES && |s.droppedByCategory| == CATEGORIES
    case SetLevel(category, _) => category < CATEGORIES && |s.levels| == CATEGORIES
    case DrainStarts => s.scheduled
    case WriteSettled(_) => s.inFlight
    case Flush | Close => true
    case SinkCloseSettled(_) => s.closing == SinkClosing
  }

  function Next(s: State, e: Event): State
    requires Enabled(s, e)
  {
    match e
    case Emit(category, level) => AfterEmit(s, category, level)
    case SetLevel(category, level) => if s.closed then s else s.(levels := s.levels[category := level])
    case DrainStarts => if s.draining then s.(scheduled := false) else Continued(s.(scheduled := false))
    case WriteSettled(ok) => Continued(AfterWrite(s, ok))
    case Flush => AfterFlush(s)
    case Close => AfterClose(s)
    case SinkCloseSettled(ok) => s.(closing := SinkClosed, closeFailures := s.closeFailures + (if ok then 0 else 1))
  }

  // ---------------------------------------------------------------- the invariant

  function InFlightCount(s: State): nat {
    if s.inFlight then 1 else 0
  }

  ghost predicate CountsBalance(s: State) {
    && s.validEmits == s.accepted + s.filtered + s.dropped
    && s.dropped == Sum(s.droppedByCategory) && |s.droppedByCategory| == CATEGORIES && |s.levels| == CATEGORIES
    && s.accepted == Settled(s) + InFlightCount(s) + |s.queue|
    && |s.queue| <= s.maxQueued
  }

  /** The sink has seen 1, 2, 3, ... and the queue continues where it stopped. */
  ghost predicate InOrder(s: State) {
    && Settled(s) + InFlightCount(s) <= s.accepted
    && s.handed == Numbers(0, Settled(s) + InFlightCount(s))
    && s.queue == Numbers(Settled(s) + InFlightCount(s), s.accepted)
  }

  ghost predicate WaitersSound(s: State) {
    && (s.waiters != [] ==> s.scheduled || s.draining)
    && (forall i :: 0 <= i < |s.waiters| ==> s.waiters[i] <= s.accepted)
    && (forall i :: 0 <= i < |s.released| ==> s.released[i].0 <= s.released[i].1 <= Settled(s))
  }

  ghost predicate Invariant(s: State) {
    && CountsBalance(s) && InOrder(s) && WaitersSound(s)
    && (s.draining <==> s.inFlight) && !(s.scheduled && s.draining)
    && (s.queue != [] ==> s.scheduled || s.draining)
    && (s.scheduled ==> s.queue != [])
    && (s.closing != NotClosing <==> s.closed)
    && (s.closing == AwaitFlush ==> s.waiters != [])
    && (s.closing == SinkClosing || s.closing == SinkClosed ==> Idle(s))
  }

  lemma {:induction false} SumAfterIncrement(s: seq<nat>, i: nat)
    requires i < |s|
    ensures Sum(s[i := s[i] + 1]) == Sum(s) + 1
  {
    var n := |s| - 1;
    if i < n {
      SumAfterIncrement(s[..n], i);
      assert s[i := s[i] + 1][..n] == s[..n][i := s[..n][i] + 1];
    } else {
      assert s[i := s[i] + 1][..n] == s[..n];
    }
  }

  lemma {:induction false} EmitKeepsInvariant(s: State, category: nat, level: nat)
    requires Invariant(s) && Enabled(s, Emit(category, level))
    ensures Invariant(AfterEmit(s, category, level))
  {
    match EmitVerdict(s, category, level)
    case Dropped => SumAfterIncrement(s.droppedByCategory, category);
    case Accepted => assert Numbers(Settled(s) + InFlightCount(s), s.accepted + 1) == s.queue + [s.accepted + 1];
    case _ =>
  }

  /** The drain runs and no write is under way. */
  ghost predicate BetweenWrites(s: State) {
    && CountsBalance(s.(inFlight := false)) && InOrder(s.(inFlight := false))
    && (forall i :: 0 <= i < |s.waiters| ==> s.waiters[i] <= s.accepted)
    && (forall i :: 0 <= i < |s.released| ==> s.released[i].0 <= s.released[i].1 <= Settled(s))
    && !s.scheduled && (s.closing != NotClosing <==> s.closed)
    && (s.closing == AwaitFlush ==> s.waiters != [])
    && (s.closing == SinkClosing || s.closing == SinkClosed ==> s.queue == [])
  }

  /** The drain goes on with all writes settled so far. */
  lemma {:induction false} ContinuingKeepsInvariant(s: State)
    requires BetweenWrites(s)
    ensures Invariant(Continued(s))
  {
    var k := Settled(s);
    if s.queue != [] {
      assert s.handed + [s.queue[0]] == Numbers(0, k + 1);
      assert s.queue[1..] == Numbers(k + 1, s.accepted);
    }
  }

  lemma {:induction false} DrainKeepsInvariant(s: State)
    requires Invariant(s) && Enabled(s, DrainStarts)
    ensures Invariant(Next(s, DrainStarts))
  {
    ContinuingKeepsInvariant(s.(scheduled := false));
  }

  lemma {:induction false} WriteKeepsInvariant(s: State, ok: bool)
    requires Invariant(s) && Enabled(s, WriteSettled(ok))
    ensures Invariant(Next(s, WriteSettled(ok)))
  {
    WriteSettles(s, ok);
    ContinuingKeepsInvariant(AfterWrite(s, ok));
  }

  lemma {:induction false} WriteSettles(s: State, ok: bool)
    requires Invariant(s) && s.inFlight
    ensures BetweenWrites(AfterWrite(s, ok))
  {
    assert Settled(AfterWrite(s, ok)) == Settled(s) + 1;
  }

  lemma {:induction false} FlushKeepsInvariant(s: State)
    requires Invariant(s)
    ensures Invariant(AfterFlush(s))
  {}

  lemma {:induction false} CloseKeepsInvariant(s: State)
    requires Invariant(s)
    ensures Invariant(AfterClose(s))
  {}

  lemma {:induction false} StepKeepsInvariant(s: State, e: Event)
    requires Invariant(s) && Enabled(s, e)
    ensures Invariant(Next(s, e))
  {
    match e
    case Emit(category, level) => EmitKeepsInvariant(s, category, level);
    case SetLevel(_, _) =>
    case DrainStarts => DrainKeepsInvariant(s);
    case WriteSettled(ok) => WriteKeepsInvariant(s, ok);
    case Flush => FlushKeepsInvariant(s);
    case Close => CloseKeepsInvariant(s);
    case SinkCloseSettled(_) =>
  }

  // ---------------------------------------------------------------- runs

  ghost predicate Run(s: State, events: seq<Event>)
    decreases |events|
  {
    events == [] || (Enabled(s, events[0]) && Run(Next(s, events[0]), events[1..]))
  }

  ghost function After(s: State, events: seq<Event>): State
    requires Run(s, events)
    decreases |events|
  {
    if events == [] then s else After(Next(s, events[0]), events[1..])
  }

  lemma {:induction false} RunKeepsInvariant(s: State, events: seq<Event>)
    requires Invariant(s) && Run(s, events)
    ensures Invariant(After(s, events))
    decreases |events|
  {
    if events != [] {
      StepKeepsInvariant(s, events[0]);
      RunKeepsInvariant(Next(s, events[0]), events[1..]);
    }
  }

  lemma {:induction false} InitialInvariant(s: State)
    requires IsInitial(s)
    ensures Invariant(s)
  {
    ZerosSumToZero(s.droppedByCategory);
  }

  lemma {:induction false} ZerosSumToZero(s: seq<nat>)
    requires forall i :: 0 <= i < |s| ==> s[i] == 0
    ensures Sum(s) == 0
  {
    if s != [] {
      ZerosSumToZero(s[..|s| - 1]);
    }
  }

  /**
   * In every run: each valid emit is counted once, nothing accepted is lost, the sink sees
   * 1, 2, 3, ... without gap or overlap, and a nonempty queue is being drained or will be.
   */
  lemma {:induction false} DeliveryIsOrderlyAndComplete(start: State, events: seq<Event>)
    requires IsInitial(start) && Run(start, events)
    ensures
      var s := After(start, events);
      && s.validEmits == s.accepted + s.filtered + s.dropped && s.dropped == Sum(s.droppedByCategory)
      && s.accepted == s.delivered + s.writeFailures + |s.queue| + InFlightCount(s)
      && |s.handed| + |s.queue| == s.accepted && s.handed == Numbers(0, |s.handed|)
      && |s.queue| <= s.maxQueued
      && (s.queue != [] ==> s.scheduled || s.draining)
  {
    InitialInvariant(start);
    RunKeepsInvariant(start, events);
  }

  /** Every answered flush was answered only when all events accepted before it had been through the sink. */
  lemma {:induction false} FlushWaitsForEarlierEvents(start: State, events: seq<Event>, i: nat)
    requires IsInitial(start) && Run(start, events) && i < |After(start, events).released|
    ensures
      var (acceptedBefore, settledThen) := After(start, events).released[i];
      acceptedBefore <= settledThen <= Settled(After(start, events))
  {
    InitialInvariant(start);
    RunKeepsInvariant(start, events);
  }

  /** The sink is closed only after everything was written, and is never written to afterwards. */
  lemma {:induction false} SinkClosesLast(start: State, events: seq<Event>, more: seq<Event>)
    requires IsInitial(start) && Run(start, events) && Run(After(start, events), more)
    requires After(start, events).closing == SinkClosing || After(start, events).closing == SinkClosed
    ensures Settled(After(start, events)) == After(start, events).accepted
    ensures After(After(start, events), more).handed == After(start, events).handed
  {
    InitialInvariant(start);
    RunKeepsInvariant(start, events);
    NothingAfterSinkCloses(After(start, events), more);
  }

  lemma {:induction false} NothingAfterSinkCloses(s: State, events: seq<Event>)
    requires Invariant(s) && Run(s, events) && (s.closing == SinkClosing || s.closing == SinkClosed)
    ensures After(s, events).handed == s.handed
    decreases |events|
  {
    if events != [] {
      StepKeepsInvariant(s, events[0]);
      NothingAfterSinkCloses(Next(s, events[0]), events[1..]);
    }
  }

  // ---------------------------------------------------------------- every flush can be answered

  function Work(s: State): nat {
    2 * |s.queue| + InFlightCount(s) + if s.scheduled then 1 else 0
  }

  /**
   * However a run went so far, the drain can go on until every flush that waits has been answered,
   * all of them after the last accepted event, and a close that waited closes the sink.
   */
  lemma {:induction false} EveryFlushIsAnswered(s: State) returns (events: seq<Event>)
    requires Invariant(s)
    ensures Run(s, events)
    ensures
      var after := After(s, events);
      && Idle(after) && after.waiters == [] && after.accepted == s.accepted && Settled(after) == s.accepted
      && after.released == s.released + Answers(s.waiters, s.accepted)
      && after.closing == if s.closing == AwaitFlush then SinkClosing else s.closing
    decreases Work(s)
  {
    if Idle(s) {
      assert Answers(s.waiters, s.accepted) == [];
      events := [];
    } else {
      var e := if s.scheduled then DrainStarts else WriteSettled(true);
      DrainGoesOn(s, e);
      var next := Next(s, e);
      var rest := EveryFlushIsAnswered(next);
      events := [e] + rest;
      assert events[1..] == rest;
      assert next.waiters == [] ==> next.released + Answers(next.waiters, next.accepted) == next.released;
    }
  }

  lemma {:induction false} DrainGoesOn(s: State, e: Event)
    requires Invariant(s) && !Idle(s) && e == if s.scheduled then DrainStarts else WriteSettled(true)
    ensures Enabled(s, e) && Invariant(Next(s, e)) && Work(Next(s, e)) < Work(s) && Next(s, e).accepted == s.accepted
    ensures
      var next := Next(s, e);
      if s.queue == [] then
        && Idle(next) && next.waiters == [] && next.released == s.released + Answers(s.waiters, s.accepted)
        && next.closing == (if s.closing == AwaitFlush then SinkClosing else s.closing)
      else next.waiters == s.waiters && next.released == s.released && next.closing == s.closing
  {
    StepKeepsInvariant(s, e);
  }

  // ---------------------------------------------------------------- the mutable form

  /** The dispatcher object; each method is one uninterrupted stretch of the source. */
  class RfcDiagnosticDispatcher {
    const maxQueued: nat
    var levels: seq<nat>
    var queue: seq<nat>
    var scheduled: bool
    var draining: bool
    var closed: bool
    var closing: Closing
    var accepted: nat
    var delivered: nat
    var writeFailures: nat
    var closeFailures: nat
    var filtered: nat
    var dropped: nat
    var droppedByCategory: seq<nat>
    ghost var inFlight: bool
    ghost var validEmits: nat
    ghost var handed: seq<nat>
    ghost var waiters: seq<nat>
    ghost var released: seq<(nat, nat)>

    ghost function View(): State
      reads this
    {
      State(maxQueued, levels, queue, inFlight, scheduled, draining, closed, closing, validEmits, accepted, delivered,
            writeFailures, closeFailures, filtered, dropped, droppedByCategory, handed, waiters, released)
    }

    constructor (maxQueued: nat, defaultLevel: nat)
      requires maxQueued >= 1
      ensures IsInitial(View())
    {
      this.maxQueued := maxQueued;
      levels := seq(CATEGORIES, _ => defaultLevel);
      queue, scheduled, draining, closed, closing := [], false, false, false, NotClosing;
      accepted, delivered, writeFailures, closeFailures, filtered, dropped := 0, 0, 0, 0, 0, 0;
      droppedByCategory := seq(CATEGORIES, _ => 0);
      inFlight, validEmits, handed, waiters, released := false, 0, [], [], [];
    }

    method EmitEvent(category: nat, level: nat) returns (verdict: Verdict)
      requires Enabled(View(), Emit(category, level))
      modifies this
      ensures View() == Next(old(View()), Emit(category, level))
      ensures verdict == EmitVerdict(old(View()), category, level)
    {
      if closed {
        return Refused;
      }
      validEmits := validEmits + 1;
      if level > levels[category] {
        filtered := filtered + 1;
        return Filtered;
      }
      if |queue| >= maxQueued {
        dropped := dropped + 1;
        droppedByCategory := droppedByCategory[category := droppedByCategory[category] + 1];
        return Dropped;
      }
      Enqueue();
      return Accepted;
    }

    /** Number the event, queue it, and make sure a drain will come. */
    method Enqueue()
      modifies this`accepted, this`queue, this`scheduled
      ensures accepted == old(accepted) + 1 && queue == old(queue) + [old(accepted) + 1]
      ensures scheduled == (old(scheduled) || !draining)
    {
      accepted := accepted + 1;
      queue := queue + [accepted];
      if !scheduled && !draining {
        scheduled := true;
      }
    }

    /** The head of the drain loop: hand the next event to the sink, or finish. */
    method TakeNext()
      modifies this
      ensures View() == Continued(old(View()))
    {
      if |queue| > 0 {
        handed := handed + [queue[0]];
        queue, draining, inFlight := queue[1..], true, true;
      } else {
        draining, inFlight := false, false;
        released := released + Answers(waiters, delivered + writeFailures);
        waiters := [];
        if closing == AwaitFlush {
          closing := SinkClosing;
        }
      }
    }

    method Drain()
      requires Enabled(View(), DrainStarts)
      modifies this
      ensures View() == Next(old(View()), DrainStarts)
    {
      scheduled := false;
      if !draining {
        TakeNext();
      }
    }

    method SinkSettled(ok: bool)
      requires Enabled(View(), WriteSettled(ok))
      modifies this
      ensures View() == Next(old(View()), WriteSettled(ok))
    {
      if ok {
        delivered := delivered + 1;
      } else {
        writeFailures := writeFailures + 1;
      }
      TakeNext();
    }

    method FlushEvents() returns (waits: bool)
      modifies this
      ensures View() == Next(old(View()), Flush)
      ensures waits <==> !Idle(old(View()))
    {
      waits := scheduled || draining || |queue| > 0;
      if waits {
        waiters := waiters + [accepted];
      } else {
        released := released + [(accepted, delivered + writeFailures)];
      }
    }

    method CloseDispatcher()
      modifies this
      ensures View() == Next(old(View()), Close)
    {
      if closing != NotClosing {
        return;
      }
      closed := true;
      var waits := FlushEvents();
      closing := if waits then AwaitFlush else SinkClosing;
    }
  }
}
