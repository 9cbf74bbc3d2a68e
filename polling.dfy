/** The card-presence state machine of a reader, as values: the poller slot,
    the current-card slot, the sticky removed flag and the disposed flag, and
    the events one step of the polling loop delivers. The class FelicaReader
    is proved to follow it. */
module Polling {
  import opened Pcsc

  /** Where the polling loop is: waiting for a first successful immediate
      status query, or waiting for status changes. */
  datatype Phase = AwaitingFirstStatus | Observing

  /** The poller slot: no thread, a live thread in some phase, or a thread
      that has left its loop (after the reader was removed) but is still
      referenced. */
  datatype Poller = Idle | Running(phase: Phase) | Exited

  /** The current-card slot: empty, or a card with the given native handle
      (zero once that card has been disconnected). */
  datatype Slot = NoCard | Attached(handle: Ptr)

  /** Events delivered to a listener. */
  datatype Event = CardSet | ReaderRemoved

  /** The outcome of one status query: failed (or timed out), or the reader's
      event-state bits. */
  datatype StatusQuery = QueryFailed | Snapshot(eventState: bv32)

  /** What the native connect call reports if the loop connects a card now. */
  datatype ConnectReply = ConnectReply(status: int, card: Ptr, protocol: bv32)

  /** One turn of the polling loop's environment: the status query's outcome
      and the connect call's answer, used only if the loop connects. */
  datatype Observation = Observation(query: StatusQuery, connect: ConnectReply)

  datatype ReaderState = ReaderState(
    poller: Poller,
    slot: Slot,
    removed: bool,
    disposed: bool,
    cardSetListener: bool,
    removedListener: bool)

  datatype StepResult = StepResult(state: ReaderState, events: seq<Event>)

  /** A successful connect hands back a live handle and a defined protocol. */
  predicate WellFormedReply(c: ConnectReply) {
    c.status == ScardSSuccess ==> c.card != Zero && c.protocol != ProtocolUndefined
  }

  /** The slot after a connect attempt: a card only if the call succeeded. */
  function ConnectCard(c: ConnectReply): (slot: Slot)
    ensures slot.Attached? <==> c.status == ScardSSuccess
    ensures slot.Attached? ==> slot.handle == c.card
  {
    if c.status == ScardSSuccess then Attached(c.card) else NoCard
  }

  /** CardSet is delivered only for a card and only to a listener. */
  function DispatchCardSet(slot: Slot, listener: bool): (events: seq<Event>)
    ensures events == [CardSet] <==> slot.Attached? && listener
    ensures events != [CardSet] ==> events == []
  {
    if slot.Attached? && listener then [CardSet] else []
  }

  /** ReaderRemoved is delivered only once removed, and only to a listener. */
  function DispatchReaderRemoved(removed: bool, listener: bool): (events: seq<Event>)
    ensures events == [ReaderRemoved] <==> removed && listener
    ensures events != [ReaderRemoved] ==> events == []
  {
    if removed && listener then [ReaderRemoved] else []
  }

  predicate HasBit(bits: bv32, bit: bv32) {
    bits & bit != 0
  }

  /** One iteration of the polling loop. */
  function Step(s: ReaderState, o: Observation): (r: StepResult)
    requires s.poller.Running?
    ensures |r.events| <= 1
    ensures r.state.disposed == s.disposed
    ensures r.state.cardSetListener == s.cardSetListener && r.state.removedListener == s.removedListener
    ensures r.state.poller.Running? || r.state.poller == Exited
    ensures r.state.removed <==> s.removed || r.state.poller == Exited
    ensures r.state.poller == Exited ==> r.state.slot == NoCard && r.state.removed
    ensures r.events == [ReaderRemoved] ==> r.state.poller == Exited && s.removedListener
    ensures r.events == [CardSet] ==>
      s.cardSetListener && r.state.slot == Attached(o.connect.card) && o.connect.status == ScardSSuccess
      && r.state.poller == Running(Observing)
  {
    match s.poller.phase
    case AwaitingFirstStatus =>
      (match o.query
       case QueryFailed => StepResult(s, [])
       case Snapshot(bits) =>
         if !HasBit(bits, StateEmpty) then
           var slot := ConnectCard(o.connect);
           StepResult(s.(poller := Running(Observing), slot := slot), DispatchCardSet(slot, s.cardSetListener))
         else
           StepResult(s.(poller := Running(Observing)), []))
    case Observing =>
      (match o.query
       case QueryFailed => StepResult(s, [])
       case Snapshot(bits) =>
         if HasBit(bits, StateUnavailable) then
           StepResult(s.(poller := Exited, slot := NoCard, removed := true),
                      DispatchReaderRemoved(true, s.removedListener))
         else if HasBit(bits, StatePresent) then
           if s.slot == NoCard then
             var slot := ConnectCard(o.connect);
             StepResult(s.(slot := slot), DispatchCardSet(slot, s.cardSetListener))
           else StepResult(s, [])
         else if HasBit(bits, StateEmpty) then
           StepResult(s.(slot := NoCard), [])
         else StepResult(s, []))
  }

  /** The polling loop over a finite sequence of observations; it stops at
      the end of the sequence or when the loop has exited. */
  function Run(s: ReaderState, obs: seq<Observation>): (r: StepResult)
    decreases |obs|
  {
    if obs == [] || !s.poller.Running? then StepResult(s, [])
    else
      var first := Step(s, obs[0]);
      var rest := Run(first.state, obs[1..]);
      StepResult(rest.state, first.events + rest.events)
  }

  /** A run on a non-empty sequence of observations is the step on its
      first observation followed by the run on the rest. */
  lemma RunCons(s: ReaderState, obs: seq<Observation>)
    requires obs != [] && s.poller.Running?
    ensures var first := Step(s, obs[0]);
      var rest := Run(first.state, obs[1..]);
      Run(s, obs) == StepResult(rest.state, first.events + rest.events)
  {
  }

  /** Extending the observations by the one at `i` extends the run by one
      step, as long as the poller is still running. */
  lemma RunSnoc(s: ReaderState, obs: seq<Observation>, i: nat)
    requires i < |obs| && Run(s, obs[..i]).state.poller.Running?
    ensures var prefix := Run(s, obs[..i]);
      var last := Step(prefix.state, obs[i]);
      Run(s, obs[..i + 1]) == StepResult(last.state, prefix.events + last.events)
  {
    var prefix := Run(s, obs[..i]);
    var last := Step(prefix.state, obs[i]);
    assert obs[..i + 1] == obs[..i] + [obs[i]];
    RunAppend(s, obs[..i], [obs[i]]);
    assert Run(prefix.state, [obs[i]]) == StepResult(last.state, last.events) by {
      RunCons(prefix.state, [obs[i]]);
      assert [obs[i]][1..] == [];
    }
  }

  /** A run that has consumed `i` observations and either used them all or
      stopped running is the run on all of them. */
  lemma RunToStop(s: ReaderState, obs: seq<Observation>, i: nat)
    requires i <= |obs|
    requires i == |obs| || !Run(s, obs[..i]).state.poller.Running?
    ensures Run(s, obs) == Run(s, obs[..i])
  {
    if i == |obs| {
      assert obs[..i] == obs;
    } else {
      assert obs == obs[..i] + obs[i..];
      RunAppend(s, obs[..i], obs[i..]);
      var prefix := Run(s, obs[..i]);
      assert Run(prefix.state, obs[i..]) == StepResult(prefix.state, []);
    }
  }

  /** StartPolling: a poller is created only when the slot is empty. */
  function Start(s: ReaderState): (r: ReaderState)
    ensures s.poller == Idle ==> r.poller == Running(AwaitingFirstStatus)
    ensures s.poller != Idle ==> r == s
    ensures r.slot == s.slot && r.removed == s.removed && r.disposed == s.disposed
    ensures r.cardSetListener == s.cardSetListener && r.removedListener == s.removedListener
  {
    if s.poller == Idle then s.(poller := Running(AwaitingFirstStatus)) else s
  }

  /** StopPolling: the poller slot is emptied; the card slot is untouched. */
  function Stop(s: ReaderState): (r: ReaderState)
    ensures r.poller == Idle
    ensures r.slot == s.slot && r.removed == s.removed && r.disposed == s.disposed
    ensures r.cardSetListener == s.cardSetListener && r.removedListener == s.removedListener
  {
    s.(poller := Idle)
  }

  /** Dispose: stop polling, disconnect the attached card (its handle becomes
      zero, the card stays in the slot), mark disposed; a second call does
      nothing. */
  function Dispose(s: ReaderState): (r: ReaderState)
    ensures s.disposed ==> r == s
    ensures !s.disposed ==> r.poller == Idle && r.disposed && r.removed == s.removed
    ensures !s.disposed ==> (r.slot == if s.slot.Attached? then Attached(Zero) else NoCard)
    ensures r.cardSetListener == s.cardSetListener && r.removedListener == s.removedListener
  {
    if s.disposed then s
    else Stop(s).(slot := if s.slot.Attached? then Attached(Zero) else NoCard, disposed := true)
  }

  /** Whether the reader counts as connected: its poller is alive and the
      reader has not been removed. */
  predicate IsConnected(s: ReaderState) {
    s.poller.Running? && !s.removed
  }

  function Initial(): (s: ReaderState)
    ensures !IsConnected(s) && !s.removed && s.slot == NoCard
  {
    ReaderState(Idle, NoCard, false, false, false, false)
  }

  // ---------------------------------------------------------------------
  // Properties of StartPolling / StopPolling / Dispose

  /** Starting twice is starting once; after the loop exited on removal,
      starting does nothing until the poller is stopped. */
  lemma StartIdempotent(s: ReaderState)
    ensures Start(Start(s)) == Start(s)
    ensures s.poller == Exited ==> Start(s) == s && !IsConnected(Start(s))
  {
  }

  /** Stopping then starting leaves exactly one fresh poller, with the card
      slot as it was. */
  lemma StopThenStart(s: ReaderState)
    ensures Start(Stop(s)).poller == Running(AwaitingFirstStatus)
    ensures Start(Stop(s)).slot == s.slot
    ensures Stop(Stop(s)) == Stop(s)
  {
  }

  /** Dispose is idempotent and leaves no live handle in the slot. */
  lemma DisposeIdempotent(s: ReaderState)
    ensures Dispose(Dispose(s)) == Dispose(s)
    ensures !s.disposed ==> Dispose(s).slot != Attached(Zero) ==> Dispose(s).slot == NoCard
  {
  }

  // ---------------------------------------------------------------------
  // Properties of a step

  /** UNAVAILABLE takes priority over every other bit while observing. */
  lemma UnavailableWins(s: ReaderState, bits: bv32, c: ConnectReply)
    requires s.poller == Running(Observing) && HasBit(bits, StateUnavailable)
    ensures Step(s, Observation(Snapshot(bits), c)).state
      == s.(poller := Exited, slot := NoCard, removed := true)
    ensures Step(s, Observation(Snapshot(bits), c)).events
      == if s.removedListener then [ReaderRemoved] else []
  {
  }

  /** PRESENT takes priority over EMPTY, and with a card already attached a
      PRESENT snapshot changes nothing. */
  lemma PresentBeforeEmpty(s: ReaderState, bits: bv32, c: ConnectReply)
    requires s.poller == Running(Observing)
    requires !HasBit(bits, StateUnavailable) && HasBit(bits, StatePresent)
    ensures s.slot.Attached? ==> Step(s, Observation(Snapshot(bits), c)) == StepResult(s, [])
    ensures s.slot == NoCard ==> Step(s, Observation(Snapshot(bits), c)).state.slot == ConnectCard(c)
    ensures s.slot == NoCard ==> Step(s, Observation(Snapshot(bits), c)).events == DispatchCardSet(ConnectCard(c), s.cardSetListener)
    ensures s.slot == NoCard ==> Step(s, Observation(Snapshot(bits), c)).state.poller == s.poller
  {
  }

  /** The first successful status query: with EMPTY clear the loop connects
      and announces a connected card to a listener; with EMPTY set it does
      nothing more; either way it moves on to observing changes. */
  lemma FirstStatusSnapshot(s: ReaderState, bits: bv32, c: ConnectReply)
    requires s.poller == Running(AwaitingFirstStatus)
    ensures Step(s, Observation(Snapshot(bits), c)).state.poller == Running(Observing)
    ensures !HasBit(bits, StateEmpty) ==>
      Step(s, Observation(Snapshot(bits), c)).state == s.(poller := Running(Observing), slot := ConnectCard(c))
      && Step(s, Observation(Snapshot(bits), c)).events == DispatchCardSet(ConnectCard(c), s.cardSetListener)
    ensures HasBit(bits, StateEmpty) ==>
      Step(s, Observation(Snapshot(bits), c)) == StepResult(s.(poller := Running(Observing)), [])
  {
  }

  /** While observing, EMPTY without UNAVAILABLE or PRESENT empties the slot
      and raises nothing. */
  lemma EmptyDetaches(s: ReaderState, bits: bv32, c: ConnectReply)
    requires s.poller == Running(Observing)
    requires !HasBit(bits, StateUnavailable) && !HasBit(bits, StatePresent) && HasBit(bits, StateEmpty)
    ensures Step(s, Observation(Snapshot(bits), c)) == StepResult(s.(slot := NoCard), [])
  {
  }

  /** While observing, a snapshot with none of UNAVAILABLE, PRESENT and
      EMPTY changes nothing. */
  lemma OtherBitsAreIgnored(s: ReaderState, bits: bv32, c: ConnectReply)
    requires s.poller == Running(Observing)
    requires !HasBit(bits, StateUnavailable) && !HasBit(bits, StatePresent) && !HasBit(bits, StateEmpty)
    ensures Step(s, Observation(Snapshot(bits), c)) == StepResult(s, [])
  {
  }

  /** A failed query, whatever the phase, changes nothing. */
  lemma FailedQueryIsNoOp(s: ReaderState, c: ConnectReply)
    requires s.poller.Running?
    ensures Step(s, Observation(QueryFailed, c)) == StepResult(s, [])
  {
  }

  // ---------------------------------------------------------------------
  // Properties of the loop

  /** Running on the concatenation of two observation sequences is running
      on the first and then on the second. */
  lemma {:induction false} RunAppend(s: ReaderState, a: seq<Observation>, b: seq<Observation>)
    ensures Run(s, a + b).state == Run(Run(s, a).state, b).state
    ensures Run(s, a + b).events == Run(s, a).events + Run(Run(s, a).state, b).events
    decreases |a|, 1
  {
    if a == [] {
      assert a + b == b;
    } else if s.poller.Running? {
      RunAppendCons(s, a, b);
    } else {
      assert Run(s, a) == StepResult(s, []) && Run(s, a + b) == StepResult(s, []);
      assert Run(s, b) == StepResult(s, []);
    }
  }

  /** RunAppend when `a` is non-empty and the poller runs: the first step,
      then the rest of `a` followed by `b`. */
  lemma {:induction false} RunAppendCons(s: ReaderState, a: seq<Observation>, b: seq<Observation>)
    requires a != [] && s.poller.Running?
    ensures Run(s, a + b).state == Run(Run(s, a).state, b).state
    ensures Run(s, a + b).events == Run(s, a).events + Run(Run(s, a).state, b).events
    decreases |a|, 0
  {
    var first := Step(s, a[0]);
    var restA := Run(first.state, a[1..]);
    var restB := Run(restA.state, b);
    assert Run(s, a) == StepResult(restA.state, first.events + restA.events) by {
      RunCons(s, a);
    }
    assert Run(s, a + b) == StepResult(restB.state, first.events + (restA.events + restB.events)) by {
      RunAppend(first.state, a[1..], b);
      RunConsAppend(s, a, b);
    }
    assert first.events + (restA.events + restB.events) == (first.events + restA.events) + restB.events;
  }

  /** The first observation of a non-empty `a` is also the first of `a + b`,
      and the rest of `a + b` is the rest of `a` followed by `b`. */
  lemma RunConsAppend(s: ReaderState, a: seq<Observation>, b: seq<Observation>)
    requires a != [] && s.poller.Running?
    ensures var first := Step(s, a[0]);
      var rest := Run(first.state, a[1..] + b);
      Run(s, a + b) == StepResult(rest.state, first.events + rest.events)
  {
    assert (a + b)[0] == a[0] && (a + b)[1..] == a[1..] + b;
    RunCons(s, a + b);
  }

  /** The loop keeps the flags that no step touches, and removal is sticky. */
  lemma {:induction false} RunKeepsFlags(s: ReaderState, obs: seq<Observation>)
    ensures Run(s, obs).state.disposed == s.disposed
    ensures Run(s, obs).state.cardSetListener == s.cardSetListener
    ensures Run(s, obs).state.removedListener == s.removedListener
    ensures s.removed ==> Run(s, obs).state.removed
    decreases |obs|
  {
    if obs != [] && s.poller.Running? {
      RunKeepsFlags(Step(s, obs[0]).state, obs[1..]);
    }
  }

  /** Nothing follows ReaderRemoved: it can only be the last event, and it
      is delivered at most once. */
  lemma {:induction false} NoEventAfterReaderRemoved(s: ReaderState, obs: seq<Observation>)
    ensures forall i :: 0 <= i < |Run(s, obs).events| - 1 ==> Run(s, obs).events[i] == CardSet
    decreases |obs|
  {
    if obs != [] && s.poller.Running? {
      var first := Step(s, obs[0]);
      NoEventAfterReaderRemoved(first.state, obs[1..]);
      if first.events == [ReaderRemoved] {
        assert first.state.poller == Exited;
        assert Run(first.state, obs[1..]).events == [];
      }
    }
  }

  /** Starting from a running poller, the loop ends up exited exactly when
      it saw the reader go away; a listener then hears ReaderRemoved. */
  lemma {:induction false} ExitedIffReaderRemoved(s: ReaderState, obs: seq<Observation>)
    requires s.poller.Running?
    ensures Run(s, obs).state.poller == Exited ==> Run(s, obs).state.removed && Run(s, obs).state.slot == NoCard
    ensures s.removedListener ==> (ReaderRemoved in Run(s, obs).events <==> Run(s, obs).state.poller == Exited)
    ensures Run(s, obs).state.poller.Running? || Run(s, obs).state.poller == Exited
    decreases |obs|
  {
    if obs != [] {
      var first := Step(s, obs[0]);
      if first.state.poller.Running? {
        ExitedIffReaderRemoved(first.state, obs[1..]);
        assert ReaderRemoved !in first.events;
      } else {
        assert Run(first.state, obs[1..]) == StepResult(first.state, []);
      }
    }
  }

  /** The reader is removed after the loop exactly when it was removed
      before, or the loop exited on an UNAVAILABLE snapshot. */
  lemma {:induction false} RemovedOnlyByUnavailable(s: ReaderState, obs: seq<Observation>)
    requires s.poller.Running?
    ensures Run(s, obs).state.removed <==> s.removed || Run(s, obs).state.poller == Exited
    decreases |obs|
  {
    if obs != [] {
      var first := Step(s, obs[0]);
      if first.state.poller.Running? {
        RemovedOnlyByUnavailable(first.state, obs[1..]);
      }
    }
  }

  /** A snapshot in a run of card-present observations: a failed query, or
      PRESENT without UNAVAILABLE. */
  predicate PresentObservation(o: Observation) {
    o.query.QueryFailed? ||
    (!HasBit(o.query.eventState, StateUnavailable) && HasBit(o.query.eventState, StatePresent))
  }

  predicate PresentRun(obs: seq<Observation>) {
    forall i :: 0 <= i < |obs| ==> PresentObservation(obs[i])
  }

  function CountCardSet(events: seq<Event>): (n: nat)
    ensures n <= |events|
  {
    if events == [] then 0 else (if events[0] == CardSet then 1 else 0) + CountCardSet(events[1..])
  }

  /** While observing with a card attached, present snapshots deliver
      nothing and keep the card. */
  lemma {:induction false} AttachedPresentRunIsQuiet(s: ReaderState, obs: seq<Observation>)
    requires s.poller == Running(Observing) && s.slot.Attached?
    requires PresentRun(obs)
    ensures Run(s, obs) == StepResult(s, [])
    decreases |obs|
  {
    if obs != [] {
      assert PresentObservation(obs[0]);
      assert Step(s, obs[0]) == StepResult(s, []);
      assert PresentRun(obs[1..]) by {
        forall i | 0 <= i < |obs[1..]| ensures PresentObservation(obs[1..][i]) {
          assert obs[1..][i] == obs[i + 1];
        }
      }
      AttachedPresentRunIsQuiet(s, obs[1..]);
    }
  }

  /** A run of PRESENT snapshots delivers at most one CardSet and never
      ReaderRemoved, whatever the phase it starts in; while observing with
      a card attached it delivers nothing. */
  lemma {:induction false} AtMostOneCardSetPerPresentRun(s: ReaderState, obs: seq<Observation>)
    requires s.poller.Running?
    requires PresentRun(obs)
    ensures CountCardSet(Run(s, obs).events) <= 1
    ensures ReaderRemoved !in Run(s, obs).events
    ensures Run(s, obs).state.poller.Running?
    ensures s.poller == Running(Observing) && s.slot.Attached? ==> Run(s, obs).events == []
    decreases |obs|
  {
    if obs != [] {
      assert PresentObservation(obs[0]);
      var first := Step(s, obs[0]);
      assert PresentRun(obs[1..]) by {
        forall i | 0 <= i < |obs[1..]| ensures PresentObservation(obs[1..][i]) {
          assert obs[1..][i] == obs[i + 1];
        }
      }
      var rest := Run(first.state, obs[1..]);
      AtMostOneCardSetPerPresentRun(first.state, obs[1..]);
      if first.events == [CardSet] {
        AttachedPresentRunIsQuiet(first.state, obs[1..]);
        assert rest.events == [];
        assert first.events + rest.events == [CardSet];
      } else {
        assert first.events == [];
        assert first.events + rest.events == rest.events;
      }
    }
  }

  // ---------------------------------------------------------------------
  // Scenarios

  const Listening := ReaderState(Running(Observing), NoCard, false, false, true, true)
  const Connects := ConnectReply(ScardSSuccess, NonZero(1), ProtocolT1)

  /** [present] gives one CardSet and a card in the slot. */
  lemma ScenarioPresent()
    ensures Run(Listening, [Observation(Snapshot(StatePresent), Connects)])
      == StepResult(Listening.(slot := Attached(NonZero(1))), [CardSet])
  {
  }

  /** [present, unavailable] gives CardSet then ReaderRemoved, and the loop
      ends: later snapshots change nothing. */
  lemma ScenarioPresentUnavailable(later: seq<Observation>)
    ensures Run(Listening, [Observation(Snapshot(StatePresent), Connects),
                            Observation(Snapshot(StateUnavailable), Connects)] + later)
      == StepResult(Listening.(poller := Exited, removed := true), [CardSet, ReaderRemoved])
  {
    var obs := [Observation(Snapshot(StatePresent), Connects),
                Observation(Snapshot(StateUnavailable), Connects)];
    var attached := Listening.(slot := Attached(NonZero(1)));
    var gone := Listening.(poller := Exited, removed := true);
    assert Step(Listening, obs[0]) == StepResult(attached, [CardSet]);
    assert Step(attached, obs[1]) == StepResult(gone, [ReaderRemoved]);
    assert Run(gone, []) == StepResult(gone, []);
    assert Run(attached, obs[1..]) == StepResult(gone, [ReaderRemoved]);
    assert Run(Listening, obs) == StepResult(gone, [CardSet, ReaderRemoved]);
    RunAppend(Listening, obs, later);
  }

  /** [empty, present, empty] gives one CardSet, on the second snapshot. */
  lemma ScenarioEmptyPresentEmpty()
    ensures Run(Listening, [Observation(Snapshot(StateEmpty), Connects),
                            Observation(Snapshot(StatePresent), Connects),
                            Observation(Snapshot(StateEmpty), Connects)])
      == StepResult(Listening, [CardSet])
  {
    var obs := [Observation(Snapshot(StateEmpty), Connects),
                Observation(Snapshot(StatePresent), Connects),
                Observation(Snapshot(StateEmpty), Connects)];
    var attached := Listening.(slot := Attached(NonZero(1)));
    assert Step(Listening, obs[0]) == StepResult(Listening, []);
    assert Step(Listening, obs[1]) == StepResult(attached, [CardSet]);
    assert Step(attached, obs[2]) == StepResult(Listening, []);
    assert Run(Listening, obs[3..]) == StepResult(Listening, []);
    assert Run(attached, obs[2..]) == StepResult(Listening, []);
    assert Run(Listening, obs[1..]) == StepResult(Listening, [CardSet]);
  }
}
