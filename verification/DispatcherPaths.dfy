/**
 * What the calls of the dispatcher come to: the fate of an event, the order in which the sink gets
 * the accepted ones, when a flush is answered, and how a close ends.
 */
module DispatcherPaths {
  import opened Dispatcher

  /** The events are possible one after another and lead to the state. */
  predicate Leads(s: State, events: seq<Event>, t: State)
    decreases |events|
  {
    if events == [] then s == t else Enabled(s, events[0]) && Leads(Next(s, events[0]), events[1..], t)
  }

  lemma {:induction false} LeadsIsRun(s: State, events: seq<Event>, t: State)
    ensures Leads(s, events, t) <==> Run(s, events) && After(s, events) == t
    decreases |events|
  {
    if events != [] && Enabled(s, events[0]) {
      LeadsIsRun(Next(s, events[0]), events[1..], t);
    }
  }

  predicate Step(s: State, e: Event, t: State) {
    Enabled(s, e) && Next(s, e) == t
  }

  /** Steps from state to state, one after another. */
  lemma {:induction false} Chain(states: seq<State>, events: seq<Event>)
    requires |states| == |events| + 1
    requires forall n {:trigger events[n]} :: 0 <= n < |events| ==> Step(states[n], events[n], states[n + 1])
    ensures Leads(states[0], events, states[|events|])
    decreases |events|
  {
    if events != [] {
      assert Step(states[0], events[0], states[1]);
      forall n | 0 <= n < |events[1..]| ensures Step(states[1..][n], events[1..][n], states[1..][n + 1]) {
        assert Step(states[n + 1], events[n + 1], states[n + 2]);
      }
      Chain(states[1..], events[1..]);
    }
  }

  // ---------------------------------------------------------------- the fate of an event

  /** What is counted once the event has been looked at. */
  function Counted(s: State, filtered: nat, dropped: seq<nat>): State {
    s.(validEmits := s.validEmits + 1, filtered := s.filtered + filtered, droppedByCategory := dropped,
       dropped := s.dropped + if dropped == s.droppedByCategory then 0 else 1)
  }

  /**
   * An event is refused after a close, filtered above its category's level, dropped when the queue
   * is full, and otherwise queued under the next number; a drain is scheduled unless one runs.
   */
  lemma {:induction false} EventsFate(s: State, category: nat, level: nat)
    requires Enabled(s, Emit(category, level))
    ensures
      var one := s.droppedByCategory[category := s.droppedByCategory[category] + 1];
      var t := Next(s, Emit(category, level));
      && (s.closed ==> t == s)
      && (!s.closed && level > s.levels[category] ==> t == Counted(s, 1, s.droppedByCategory))
      && (!s.closed && level <= s.levels[category] && |s.queue| >= s.maxQueued ==> t == Counted(s, 0, one))
      && (!s.closed && level <= s.levels[category] && |s.queue| < s.maxQueued ==>
            t == Counted(s, 0, s.droppedByCategory)
                   .(accepted := s.accepted + 1, queue := s.queue + [s.accepted + 1], scheduled := s.scheduled || !s.draining))
  {}

  /** From then on the new level decides, for its category alone; a closed dispatcher keeps its levels. */
  lemma {:induction false} LevelIsSet(s: State, category: nat, level: nat)
    requires Enabled(s, SetLevel(category, level))
    ensures
      var t := Next(s, SetLevel(category, level));
      && t == s.(levels := t.levels) && |t.levels| == |s.levels|
      && forall c :: 0 <= c < |s.levels| ==> t.levels[c] == if c == category && !s.closed then level else s.levels[c]
  {}

  // ---------------------------------------------------------------- writes

  /** Every waiter is told how many writes have settled. */
  function Replies(waiters: seq<nat>, settled: nat): (r: seq<(nat, nat)>)
    ensures |r| == |waiters| && forall i :: 0 <= i < |r| ==> r[i] == (waiters[i], settled)
  {
    if waiters == [] then [] else Replies(waiters[..|waiters| - 1], settled) + [(waiters[|waiters| - 1], settled)]
  }

  /** Between two writes: the next event goes to the sink, or the drain is over and every flush that waits is answered. */
  function GoesOn(s: State, delivered: nat, failed: nat): State {
    var t := s.(delivered := s.delivered + delivered, writeFailures := s.writeFailures + failed, scheduled := false);
    if s.queue == [] then
      t.(inFlight := false, draining := false, waiters := [],
         released := s.released + Replies(s.waiters, t.delivered + t.writeFailures),
         closing := if s.closing == AwaitFlush then SinkClosing else s.closing)
    else t.(inFlight := true, draining := true, queue := s.queue[1..], handed := s.handed + [s.queue[0]])
  }

  /** A write that settles is counted as what it was, and the drain goes on in the order of the queue. */
  lemma {:induction false} DrainGoesInOrder(s: State, ok: bool)
    requires Invariant(s)
    ensures s.inFlight ==> Step(s, WriteSettled(ok), if ok then GoesOn(s, 1, 0) else GoesOn(s, 0, 1))
    ensures s.scheduled ==> Step(s, DrainStarts, GoesOn(s, 0, 0))
  {
    if s.inFlight {
      WriteGoesOn(s, ok);
    }
    if s.scheduled {
      RepliesAre(s.waiters, Settled(s));
    }
  }

  lemma {:induction false} RepliesAre(waiters: seq<nat>, settled: nat)
    ensures Replies(waiters, settled) == Answers(waiters, settled)
  {}

  lemma {:induction false} WriteGoesOn(s: State, ok: bool)
    requires s.inFlight && !s.scheduled
    ensures Step(s, WriteSettled(ok), if ok then GoesOn(s, 1, 0) else GoesOn(s, 0, 1))
  {
    RepliesAre(s.waiters, Settled(s) + 1);
  }

  /** An idle dispatcher takes one event to the sink and is idle again, whether the write succeeds or fails. */
  lemma {:induction false} OneEventGoesThrough(s: State, category: nat, level: nat, ok: bool)
    requires Invariant(s) && Idle(s) && !s.closed && Enabled(s, Emit(category, level)) && level <= s.levels[category] && s.maxQueued >= 1
    requires s.waiters == []
    ensures Leads(s, [Emit(category, level), DrainStarts, WriteSettled(ok)],
                  s.(validEmits := s.validEmits + 1, accepted := s.accepted + 1, handed := s.handed + [s.accepted + 1],
                     delivered := s.delivered + (if ok then 1 else 0), writeFailures := s.writeFailures + (if ok then 0 else 1)))
  {
    var a := s.(validEmits := s.validEmits + 1, accepted := s.accepted + 1, queue := [s.accepted + 1], scheduled := true);
    var b := s.(validEmits := s.validEmits + 1, accepted := s.accepted + 1, handed := s.handed + [s.accepted + 1], inFlight := true, draining := true);
    var t := s.(validEmits := s.validEmits + 1, accepted := s.accepted + 1, handed := s.handed + [s.accepted + 1],
                delivered := s.delivered + (if ok then 1 else 0), writeFailures := s.writeFailures + (if ok then 0 else 1));
    assert Step(s, Emit(category, level), a);
    assert Step(a, DrainStarts, b);
    assert s.released + Answers([], Settled(AfterWrite(b, ok))) == s.released;
    assert Step(b, WriteSettled(ok), t);
    Chain([s, a, b, t], [Emit(category, level), DrainStarts, WriteSettled(ok)]);
  }

  // ---------------------------------------------------------------- flush and close

  /** A flush is answered at once when there is nothing to wait for; otherwise it waits for what has been accepted. */
  lemma {:induction false} FlushWaitsOrNot(s: State)
    ensures Step(s, Flush, if s.queue == [] && !s.scheduled && !s.draining
                           then s.(released := s.released + [(s.accepted, s.delivered + s.writeFailures)])
                           else s.(waiters := s.waiters + [s.accepted]))
  {}

  /** A close of an idle dispatcher closes the sink at once; a failure of that is counted. */
  lemma {:induction false} IdleCloses(s: State, ok: bool)
    requires Idle(s) && s.closing == NotClosing
    ensures Leads(s, [Event.Close, SinkCloseSettled(ok)],
                  s.(closed := true, closing := SinkClosed, closeFailures := s.closeFailures + (if ok then 0 else 1),
                     released := s.released + [(s.accepted, s.delivered + s.writeFailures)]))
  {
    var closing := s.(closed := true, closing := SinkClosing, released := s.released + [(s.accepted, s.delivered + s.writeFailures)]);
    Chain([s, closing, closing.(closing := SinkClosed, closeFailures := s.closeFailures + (if ok then 0 else 1))],
          [Event.Close, SinkCloseSettled(ok)]);
  }

  /** Any other close waits like a flush, and admits nothing more; only the first close does anything. */
  lemma {:induction false} BusyCloseWaits(s: State)
    ensures !Idle(s) && s.closing == NotClosing ==>
              Step(s, Event.Close, s.(closed := true, closing := AwaitFlush, waiters := s.waiters + [s.accepted]))
    ensures s.closing != NotClosing ==> Step(s, Event.Close, s)
  {}

  /** The sink is closed once and only when a close has got that far. */
  lemma {:induction false} SinkIsClosedOnce(s: State, ok: bool)
    ensures Enabled(s, SinkCloseSettled(ok)) <==> s.closing == SinkClosing
    ensures s.closing == SinkClosing ==> Next(s, SinkCloseSettled(ok)).closing == SinkClosed
  {}
}
