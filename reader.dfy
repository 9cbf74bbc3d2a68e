/** A FeliCa reader: its polling thread, the card currently attached, the
    removed and disposed flags, and the events it raises. Every operation is
    proved to move the reader's abstract state as the Polling state machine
    says. */
module Reader {
  import opened Pcsc
  import opened Card
  import opened Polling

  /** A delivered event, with the card it announces. */
  datatype ReaderEvent = CardSetEvent(card: FelicaCard) | ReaderRemovedEvent

  function Kind(e: ReaderEvent): Event {
    if e.CardSetEvent? then CardSet else ReaderRemoved
  }

  /** The delivered events without their payloads. */
  function Kinds(es: seq<ReaderEvent>): (ks: seq<Event>)
    ensures |ks| == |es|
  {
    seq(|es|, i requires 0 <= i < |es| => Kind(es[i]))
  }

  lemma KindsAppend(a: seq<ReaderEvent>, b: seq<ReaderEvent>)
    ensures Kinds(a + b) == Kinds(a) + Kinds(b)
  {
  }

  class FelicaReader {
    /** The resource manager that enumerated this reader (kept as an
        `object`: the manager's module depends on this one). */
    const manager: object
    const readerName: string

    /** The polling thread slot. */
    var poller: Poller
    /** The card the polling loop currently holds. */
    var current: FelicaCard?
    var isRemoved: bool
    var disposed: bool
    /** Whether a handler is subscribed to each event. */
    var cardSetListener: bool
    var removedListener: bool
    /** The events delivered so far, in order. */
    var events: seq<ReaderEvent>

    /** The reader as a value of the state machine. */
    function State(): ReaderState
      reads this, current
    {
      ReaderState(poller, if current == null then NoCard else Attached(current.handle),
                  isRemoved, disposed, cardSetListener, removedListener)
    }

    /** The loop only exits after removal, and until the reader is disposed
        the attached card is one of its own and still has a live handle. */
    ghost predicate Valid()
      reads this, current
    {
      && (poller == Exited ==> isRemoved)
      && (current != null ==> current.reader == this)
      && (!disposed && current != null ==> current.handle != Zero)
    }

    constructor (manager: object, readerName: string)
      ensures Valid() && State() == Initial() && events == []
      ensures this.manager == manager && this.readerName == readerName
    {
      this.manager := manager;
      this.readerName := readerName;
      poller := Idle;
      current := null;
      isRemoved := false;
      disposed := false;
      cardSetListener := false;
      removedListener := false;
      events := [];
    }

    /** Connected: the polling thread is alive and the reader not removed. */
    predicate IsConnected()
      reads this
    {
      poller.Running? && !isRemoved
    }

    lemma IsConnectedMatchesState()
      ensures IsConnected() == Polling.IsConnected(State())
    {
    }

    method SubscribeCardSet()
      modifies this`cardSetListener
      ensures State() == old(State()).(cardSetListener := true)
    {
      cardSetListener := true;
    }

    method SubscribeReaderRemoved()
      modifies this`removedListener
      ensures State() == old(State()).(removedListener := true)
    {
      removedListener := true;
    }

    /** Creates the polling thread unless one is already referenced. */
    method StartPolling()
      requires Valid()
      modifies this`poller
      ensures Valid() && State() == Start(old(State()))
      ensures old(poller) == Idle && !isRemoved ==> IsConnected()
    {
      if poller == Idle {
        poller := Running(AwaitingFirstStatus);
      }
    }

    /** Stops and forgets the polling thread if there is one; the current
        card is left as it is. */
    method StopPolling()
      requires Valid()
      modifies this`poller
      ensures Valid() && State() == Stop(old(State()))
      ensures !IsConnected()
    {
      if poller != Idle {
        poller := Idle;
      }
    }

    /** Connects to the card on the reader: a new card object on success,
        null when the native call fails. */
    method ConnectCard(reply: ConnectReply) returns (card: FelicaCard?)
      requires WellFormedReply(reply)
      ensures card == null <==> reply.status != ScardSSuccess
      ensures card != null ==>
        fresh(card) && card.reader == this && card.handle == reply.card && card.protocol == reply.protocol
    {
      if reply.status != ScardSSuccess {
        return null;
      }
      var created := FelicaCard.Create(this, reply.card, reply.protocol);
      card := created.value;
    }

    /** Disconnects a card (the native result is ignored) and zeroes its
        handle; nothing happens for null. */
    method DisconnectCard(card: FelicaCard?)
      modifies card
      ensures card != null ==> card.handle == Zero
    {
      if card != null {
        card.handle := Zero;
      }
    }

    method DispatchEventCardSet(card: FelicaCard?)
      modifies this`events
      ensures events == old(events) + if card != null && cardSetListener then [CardSetEvent(card)] else []
    {
      if card != null && cardSetListener {
        events := events + [CardSetEvent(card)];
      }
    }

    method DispatchEventReaderRemoved()
      modifies this`events
      ensures events == old(events) + if isRemoved && removedListener then [ReaderRemovedEvent] else []
    {
      if isRemoved && removedListener {
        events := events + [ReaderRemovedEvent];
      }
    }

    /** One iteration of the polling thread's loops. */
    method PollOnce(o: Observation)
      requires Valid() && poller.Running? && WellFormedReply(o.connect)
      modifies this, current
      ensures Valid()
      ensures State() == Step(old(State()), o).state
      ensures old(events) <= events
      ensures Kinds(events) == Kinds(old(events)) + Step(old(State()), o).events
      ensures |events| > |old(events)| && events[|events| - 1].CardSetEvent? ==>
        events[|events| - 1].card == current
      ensures current == null || current == old(current) || fresh(current)
      ensures old(poller) == Running(Observing) && old(current) != null && current == null ==>
        old(current).handle == Zero
    {
      if poller.phase == AwaitingFirstStatus {
        PollFirstStatus(o);
      } else {
        PollStatusChange(o);
      }
    }

    /** An iteration of the first loop: an immediate status query, and a
        connect when the reader does not report EMPTY. */
    method PollFirstStatus(o: Observation)
      requires Valid() && poller == Running(AwaitingFirstStatus) && WellFormedReply(o.connect)
      modifies this, current
      ensures Valid()
      ensures State() == Step(old(State()), o).state
      ensures old(events) <= events
      ensures Kinds(events) == Kinds(old(events)) + Step(old(State()), o).events
      ensures |events| > |old(events)| && events[|events| - 1].CardSetEvent? ==>
        events[|events| - 1].card == current
      ensures current == null || current == old(current) || fresh(current)
    {
      var e0 := events;
      if o.query.Snapshot? {
        if o.query.eventState & StateEmpty == 0 {
          current := ConnectCard(o.connect);
          DispatchEventCardSet(current);
        }
        poller := Running(Observing);
      }
      KindsAppend(e0, events[|e0|..]);
      assert e0 + events[|e0|..] == events;
    }

    /** An iteration of the second loop: a status-change query, then removal,
        a card laid on the reader, or a card taken off it. */
    method PollStatusChange(o: Observation)
      requires Valid() && poller == Running(Observing) && WellFormedReply(o.connect)
      modifies this, current
      ensures Valid()
      ensures State() == Step(old(State()), o).state
      ensures old(events) <= events
      ensures Kinds(events) == Kinds(old(events)) + Step(old(State()), o).events
      ensures |events| > |old(events)| && events[|events| - 1].CardSetEvent? ==>
        events[|events| - 1].card == current
      ensures current == null || current == old(current) || fresh(current)
      ensures old(current) != null && current == null ==> old(current).handle == Zero
    {
      var e0 := events;
      if o.query.Snapshot? {
        var bits := o.query.eventState;
        if bits & StateUnavailable != 0 {
          DisconnectCard(current);
          current := null;
          isRemoved := true;
          DispatchEventReaderRemoved();
          poller := Exited;
        } else if bits & StatePresent != 0 {
          if current == null {
            current := ConnectCard(o.connect);
            DispatchEventCardSet(current);
          }
        } else if bits & StateEmpty != 0 {
          DisconnectCard(current);
          current := null;
        }
      }
      KindsAppend(e0, events[|e0|..]);
      assert e0 + events[|e0|..] == events;
    }

    /** The polling thread run over a finite sequence of observations: the
        initial-status loop, then the status-change loop, until the
        observations run out or the reader is removed. */
    method Poll(obs: seq<Observation>)
      requires Valid() && poller.Running?
      requires forall i :: 0 <= i < |obs| ==> WellFormedReply(obs[i].connect)
      modifies this, current
      ensures Valid()
      ensures State() == Run(old(State()), obs).state
      ensures old(events) <= events
      ensures Kinds(events) == Kinds(old(events)) + Run(old(State()), obs).events
      ensures forall k :: |old(events)| <= k < |events| && events[k].CardSetEvent? ==>
        events[k].card.reader == this
    {
      ghost var s0 := State();
      ghost var e0 := Kinds(events);
      var i := 0;
      while i < |obs| && poller.Running?
        invariant 0 <= i <= |obs|
        invariant Valid()
        invariant current == null || current == old(current) || fresh(current)
        invariant old(events) <= events
        invariant forall k :: |old(events)| <= k < |events| && events[k].CardSetEvent? ==>
          events[k].card.reader == this
        invariant State() == Run(s0, obs[..i]).state
        invariant Kinds(events) == e0 + Run(s0, obs[..i]).events
      {
        PollAt(obs, i, s0, e0);
        i := i + 1;
      }
      RunToStop(s0, obs, i);
    }

    /** One turn of Poll's loop: PollOnce on the observation at `i` extends
        the run on the first `i` observations to the first `i + 1`. */
    method PollAt(obs: seq<Observation>, i: nat, ghost s0: ReaderState, ghost e0: seq<Event>)
      requires Valid() && poller.Running? && i < |obs| && WellFormedReply(obs[i].connect)
      requires State() == Run(s0, obs[..i]).state
      requires Kinds(events) == e0 + Run(s0, obs[..i]).events
      modifies this, current
      ensures Valid()
      ensures current == null || current == old(current) || fresh(current)
      ensures old(events) <= events
      ensures forall k :: |old(events)| <= k < |events| && events[k].CardSetEvent? ==>
        events[k].card.reader == this
      ensures State() == Run(s0, obs[..i + 1]).state
      ensures Kinds(events) == e0 + Run(s0, obs[..i + 1]).events
    {
      ghost var prefix := Run(s0, obs[..i]);
      ghost var last := Step(prefix.state, obs[i]);
      assert Run(s0, obs[..i + 1]) == StepResult(last.state, prefix.events + last.events) by {
        RunSnoc(s0, obs, i);
      }
      PollOnce(obs[i]);
      assert e0 + (prefix.events + last.events) == (e0 + prefix.events) + last.events;
      assert |events| <= |old(events)| + 1;
    }

    /** Stops polling and disconnects the held card (which stays in the
        slot with a zero handle), once. */
    method Dispose()
      requires Valid()
      modifies this, current
      ensures Valid()
      ensures State() == Polling.Dispose(old(State()))
      ensures events == old(events) && current == old(current)
      ensures !old(disposed) && current != null ==> current.handle == Zero
    {
      if disposed {
        return;
      }
      StopPolling();
      if current != null {
        DisconnectCard(current);
      }
      disposed := true;
    }
  }
}
